/** The option scanner of getopt.c as `getopt_long_only(argc, argv, "", long_options, &idx)` runs it:
    with an empty short-option string, every option word is a long option, abbreviations allowed.

    The scanner is a class: `optind`, `nonoptStart` and `nonoptEnd` live across calls while the
    argument vector is permuted under them. `Kinds` and `Outcomes` read the vector as typed, left to
    right, without permuting anything; they are the specification of a whole run.
  */
module Getopt {
  import opened BlockRotation
  import opened Sequences

  datatype HasArg = NoArgument | RequiredArgument | OptionalArgument

  /** `flag == 0` is the null pointer; any other number names the variable to set. */
  datatype LongOption = LongOption(name: string, hasArg: HasArg, flag: int, val: int)

  /** An element of the argument vector; `argv[argc]` is `Null`. */
  datatype Arg = Null | Word(text: string) {
    function Text(): string {
      if Word? then text else ""
    }
  }

  const BADCH: int := 63

  // ----- matching an option name -----

  datatype Match = NoMatch | Ambiguous | Matched(index: nat)

  predicate SameInterpretation(x: LongOption, y: LongOption) {
    x.hasArg == y.hasArg && x.flag == y.flag && x.val == y.val
  }

  /** The first option called `key`, or `|table|`. */
  function FirstExact(table: seq<LongOption>, key: string): (i: nat)
    ensures i <= |table|
    ensures i < |table| ==> table[i].name == key
    ensures forall j :: 0 <= j < i ==> table[j].name != key
  {
    if table == [] then 0
    else if table[0].name == key then 0
    else 1 + FirstExact(table[1..], key)
  }

  /** The first option whose name starts with `key`, or `|table|`. */
  function FirstAbbreviated(table: seq<LongOption>, key: string): (i: nat)
    ensures i <= |table|
    ensures i < |table| ==> key <= table[i].name
    ensures forall j :: 0 <= j < i ==> !(key <= table[j].name)
  {
    if table == [] then 0
    else if key <= table[0].name then 0
    else 1 + FirstAbbreviated(table[1..], key)
  }

  /** Some abbreviation candidate before `end` means something else than the first one. */
  predicate Contested(table: seq<LongOption>, key: string, first: nat, end: nat)
    requires first < |table| && end <= |table|
  {
    exists i :: 0 <= i < end && key <= table[i].name && !SameInterpretation(table[i], table[first])
  }

  /** An exact name wins; otherwise the candidates must all mean the same, and the first is taken. */
  function MatchOf(table: seq<LongOption>, key: string): Match
  {
    var exact := FirstExact(table, key);
    var first := FirstAbbreviated(table, key);
    if exact < |table| then Matched(exact)
    else if first == |table| then NoMatch
    else if Contested(table, key, first, |table|) then Ambiguous
    else Matched(first)
  }

  /** The candidate loop of `parse_long_options`; `found` is -1 when there is none. */
  method FindLongOption(table: seq<LongOption>, key: string) returns (found: int, ambiguous: bool)
    ensures ambiguous <==> MatchOf(table, key) == Ambiguous
    ensures found == -1 || 0 <= found < |table|
    ensures !ambiguous ==> MatchOf(table, key) == if found == -1 then NoMatch else Matched(found)
  {
    found, ambiguous := -1, false;
    var i := 0;
    while i < |table|
      invariant 0 <= i <= |table|
      invariant i <= FirstExact(table, key)
      invariant found == -1 ==> i <= FirstAbbreviated(table, key) && !ambiguous
      invariant found != -1 ==> 0 <= found < i && found == FirstAbbreviated(table, key)
      invariant found != -1 ==> (ambiguous <==> Contested(table, key, found, i))
    {
      if key <= table[i].name {
        if |table[i].name| == |key| {
          assert table[i].name == key;
          return i, false;
        }
        if found == -1 {
          found := i;
          assert FirstAbbreviated(table, key) == i;
        } else if !SameInterpretation(table[i], table[found]) {
          ambiguous := true;
        }
      }
      i := i + 1;
    }
  }

  // ----- reading one option word -----

  datatype Outcome =
    | Accepted(index: nat, arg: Arg)
    | AmbiguousName
    | UnexpectedArgument(index: nat)
    | MissingArgument(index: nat)
    | UnknownName

  /** The position of the first `'='`, or `|s|`. */
  function EqualsAt(s: string): (i: nat)
    ensures i <= |s|
    ensures i < |s| ==> s[i] == '='
    ensures '=' !in s[..i]
  {
    if s == "" || s[0] == '=' then 0 else 1 + EqualsAt(s[1..])
  }

  function NameOf(text: string): string {
    text[..EqualsAt(text)]
  }

  predicate HasValue(text: string) {
    EqualsAt(text) < |text|
  }

  function ValueOf(text: string): string
    requires HasValue(text)
  {
    text[EqualsAt(text) + 1..]
  }

  /** The option takes the word after it as its argument. */
  predicate WantsNext(table: seq<LongOption>, text: string) {
    !HasValue(text) && MatchOf(table, NameOf(text)).Matched?
    && MatchOf(table, NameOf(text)).index < |table|
    && table[MatchOf(table, NameOf(text)).index].hasArg == RequiredArgument
  }

  function Interpret(table: seq<LongOption>, text: string, next: Arg): Outcome
  {
    match MatchOf(table, NameOf(text))
    case NoMatch => UnknownName
    case Ambiguous => AmbiguousName
    case Matched(i) =>
      if WantsNext(table, text) then
        if next.Null? then MissingArgument(i) else Accepted(i, next)
      else if !HasValue(text) then Accepted(i, Null)
      else if i < |table| && table[i].hasArg == NoArgument then UnexpectedArgument(i)
      else Accepted(i, Word(ValueOf(text)))
  }

  /** What the call returns for an outcome. */
  function ReturnValue(table: seq<LongOption>, o: Outcome): int
  {
    if o.Accepted? && o.index < |table| then
      if table[o.index].flag != 0 then 0 else table[o.index].val
    else BADCH
  }

  /** The caller's `optopt` after an outcome: untouched when the option is accepted. */
  function OptoptAfter(table: seq<LongOption>, o: Outcome, optopt: int): int
  {
    match o
    case Accepted(_, _) => optopt
    case AmbiguousName => 0
    case UnknownName => 0
    case UnexpectedArgument(i) => if i < |table| && table[i].flag == 0 then table[i].val else 0
    case MissingArgument(i) => if i < |table| && table[i].flag == 0 then table[i].val else 0
  }

  // ----- the vector as typed -----

  predicate IsNonOption(word: string) {
    word == "" || word[0] != '-' || word == "-"
  }

  /** The option text: the word without its one or two leading dashes. */
  function OptionText(word: string): string
  {
    if |word| < 2 then "" else if word[1] == '-' then word[2..] else word[1..]
  }

  datatype Kind = Option | NonOption | Rest

  /** How the scanner reads the words `v`: each word is part of the options, a skipped non-option, or
      behind the end of scanning. Without permutation the first non-option ends the scan. */
  function Kinds(table: seq<LongOption>, permute: bool, v: seq<Arg>): (k: seq<Kind>)
    ensures |k| == |v|
  {
    if v == [] then []
    else if IsNonOption(v[0].Text()) then
      if permute then [NonOption] + Kinds(table, permute, v[1..]) else seq(|v|, _ => Rest)
    else if v[0].Text() == "--" then [Option] + seq(|v| - 1, _ => Rest)
    else if |v| > 1 && WantsNext(table, OptionText(v[0].Text())) then
      [Option, Option] + Kinds(table, permute, v[2..])
    else [Option] + Kinds(table, permute, v[1..])
  }

  /** What the successive calls report for the words `v`, before the final -1. */
  function Outcomes(table: seq<LongOption>, permute: bool, v: seq<Arg>): seq<Outcome>
  {
    if v == [] then []
    else if IsNonOption(v[0].Text()) then
      if permute then Outcomes(table, permute, v[1..]) else []
    else if v[0].Text() == "--" then []
    else
      var text := OptionText(v[0].Text());
      var next := if |v| > 1 then v[1] else Null;
      [Interpret(table, text, next)]
      + if |v| > 1 && WantsNext(table, text) then Outcomes(table, permute, v[2..])
        else Outcomes(table, permute, v[1..])
  }

  /** The elements of `v` of kind `k`, in their order. */
  function Pick(v: seq<Arg>, kinds: seq<Kind>, k: Kind): (r: seq<Arg>)
    requires |v| == |kinds|
    ensures |r| <= |v|
  {
    if v == [] then []
    else (if kinds[0] == k then [v[0]] else []) + Pick(v[1..], kinds[1..], k)
  }

  function Part(table: seq<LongOption>, permute: bool, v: seq<Arg>, k: Kind): seq<Arg> {
    Pick(v, Kinds(table, permute, v), k)
  }

  /** The vector after a complete run: options, then non-options, then the unscanned rest. */
  function Partitioned(table: seq<LongOption>, permute: bool, v: seq<Arg>): seq<Arg> {
    Part(table, permute, v, Option) + Part(table, permute, v, NonOption) + Part(table, permute, v, Rest)
  }

  lemma PickFirst(v: seq<Arg>, kinds: seq<Kind>, k: Kind)
    requires |v| == |kinds| && v != []
    ensures Pick(v, kinds, k) == (if kinds[0] == k then [v[0]] else []) + Pick(v[1..], kinds[1..], k)
  {
  }

  lemma PickNothing(k: Kind)
    ensures Pick([], [], k) == []
  {
  }

  lemma TailOfSum<T>(a: seq<T>, b: seq<T>)
    requires a != []
    ensures (a + b)[0] == a[0] && (a + b)[1..] == a[1..] + b
  {
  }

  lemma {:induction false} PickAppend(v: seq<Arg>, kv: seq<Kind>, w: seq<Arg>, kw: seq<Kind>, k: Kind)
    requires |v| == |kv| && |w| == |kw|
    ensures Pick(v + w, kv + kw, k) == Pick(v, kv, k) + Pick(w, kw, k)
  {
    hide Pick;
    if v == [] {
      PickNothing(k);
      Empty(w);
      Empty(kw);
      Empty(Pick(w, kw, k));
    } else {
      PickFirst(v, kv, k);
      PickFirst(v + w, kv + kw, k);
      TailOfSum(v, w);
      TailOfSum(kv, kw);
      PickAppend(v[1..], kv[1..], w, kw, k);
      Assoc(if kv[0] == k then [v[0]] else [], Pick(v[1..], kv[1..], k), Pick(w, kw, k));
    }
  }

  lemma {:induction false} PickUniform(v: seq<Arg>, k: Kind, wanted: Kind)
    ensures Pick(v, seq(|v|, _ => k), wanted) == if k == wanted then v else []
  {
    if v != [] {
      assert seq(|v|, _ => k)[1..] == seq(|v| - 1, _ => k);
      PickUniform(v[1..], k, wanted);
    }
  }

  /** The indices of kind `k` from `from` on. */
  function Indices(kinds: seq<Kind>, k: Kind, from: nat): (r: seq<nat>)
    requires from <= |kinds|
    ensures |r| <= |kinds| - from && forall j :: 0 <= j < |r| ==> r[j] < |kinds|
    decreases |kinds| - from
  {
    if from == |kinds| then []
    else (if kinds[from] == k then [from] else []) + Indices(kinds, k, from + 1)
  }

  /** They are all there, and ascending. */
  lemma {:induction false} IndicesAscend(kinds: seq<Kind>, k: Kind, from: nat)
    requires from <= |kinds|
    ensures forall j :: 0 <= j < |Indices(kinds, k, from)| ==>
              from <= Indices(kinds, k, from)[j] && kinds[Indices(kinds, k, from)[j]] == k
    ensures forall i, j :: 0 <= i < j < |Indices(kinds, k, from)| ==>
              Indices(kinds, k, from)[i] < Indices(kinds, k, from)[j]
    ensures forall p :: from <= p < |kinds| && kinds[p] == k ==> p in Indices(kinds, k, from)
    decreases |kinds| - from
  {
    if from < |kinds| {
      IndicesAscend(kinds, k, from + 1);
    }
  }

  /** The elements of `v` at the indices `ix`. */
  function Select(v: seq<Arg>, ix: seq<nat>): seq<Arg>
    requires forall j :: 0 <= j < |ix| ==> ix[j] < |v|
  {
    if ix == [] then [] else [v[ix[0]]] + Select(v, ix[1..])
  }

  lemma {:induction false} PickSelects(v: seq<Arg>, kinds: seq<Kind>, k: Kind, from: nat)
    requires |v| == |kinds| && from <= |v|
    ensures Pick(v[from..], kinds[from..], k) == Select(v, Indices(kinds, k, from))
    decreases |v| - from
  {
    if from < |v| {
      PickSelects(v, kinds, k, from + 1);
      var later := Indices(kinds, k, from + 1);
      assert Pick(v[from..], kinds[from..], k)
          == (if kinds[from] == k then [v[from]] else []) + Pick(v[from + 1..], kinds[from + 1..], k) by {
        hide Select, Indices;
        assert v[from..][1..] == v[from + 1..] && kinds[from..][1..] == kinds[from + 1..];
      }
      hide Pick;
      if kinds[from] == k {
        assert Indices(kinds, k, from)[1..] == later;
      } else {
        assert Indices(kinds, k, from) == later;
      }
    }
  }

  /** `Pick` is stable: it lists the elements at exactly the indices of kind `k`, in ascending order. */
  lemma PickIsStable(v: seq<Arg>, kinds: seq<Kind>, k: Kind)
    requires |v| == |kinds|
    ensures var ix := Indices(kinds, k, 0);
            Pick(v, kinds, k) == Select(v, ix)
            && (forall i, j :: 0 <= i < j < |ix| ==> ix[i] < ix[j])
            && (forall p: nat :: p in ix <==> p < |kinds| && kinds[p] == k)
  {
    hide Pick, Select, Indices;
    PickSelects(v, kinds, k, 0);
    IndicesAscend(kinds, k, 0);
    assert v[0..] == v && kinds[0..] == kinds;
  }

  /** Sorting by kind loses and duplicates nothing. */
  lemma {:induction false} PickPermutes(v: seq<Arg>, kinds: seq<Kind>)
    requires |v| == |kinds|
    ensures multiset(Pick(v, kinds, Option)) + multiset(Pick(v, kinds, NonOption)) + multiset(Pick(v, kinds, Rest))
         == multiset(v)
  {
    if v != [] {
      assert v == [v[0]] + v[1..];
      PickPermutes(v[1..], kinds[1..]);
    }
  }

  lemma {:induction false} PickFromWords(v: seq<Arg>, kinds: seq<Kind>, k: Kind)
    requires |v| == |kinds| && forall i :: 0 <= i < |v| ==> v[i].Word?
    ensures forall i :: 0 <= i < |Pick(v, kinds, k)| ==> Pick(v, kinds, k)[i].Word?
  {
    if v != [] {
      PickFromWords(v[1..], kinds[1..], k);
    }
  }

  /** A complete run permutes the vector. */
  lemma PartitionedIsPermutation(table: seq<LongOption>, permute: bool, v: seq<Arg>)
    ensures multiset(Partitioned(table, permute, v)) == multiset(v)
  {
    PickPermutes(v, Kinds(table, permute, v));
  }

  // ----- one word at the head of the vector -----

  predicate IsOptionWord(a: Arg) {
    !IsNonOption(a.Text()) && a.Text() != "--"
  }

  /** How many words the option at the head of `v` takes. */
  function Width(table: seq<LongOption>, v: seq<Arg>): (n: nat)
    requires v != [] && IsOptionWord(v[0])
    ensures 1 <= n <= 2 && n <= |v|
  {
    if |v| > 1 && WantsNext(table, OptionText(v[0].Text())) then 2 else 1
  }

  lemma ReadOption(table: seq<LongOption>, permute: bool, v: seq<Arg>)
    requires v != [] && IsOptionWord(v[0])
    ensures var n := Width(table, v);
            Kinds(table, permute, v) == seq(n, _ => Option) + Kinds(table, permute, v[n..])
            && Outcomes(table, permute, v)
            == [Interpret(table, OptionText(v[0].Text()), if |v| > 1 then v[1] else Null)]
               + Outcomes(table, permute, v[n..])
  {
    hide WantsNext, Interpret, OptionText, IsNonOption;
    assert seq(1, _ => Option) == [Option] && seq(2, _ => Option) == [Option, Option];
  }

  /** An option at the head of `v`: how it splits every part. */
  lemma OptionSplits(table: seq<LongOption>, permute: bool, v: seq<Arg>)
    requires v != [] && IsOptionWord(v[0])
    ensures var n := Width(table, v);
            Part(table, permute, v, Option) == v[..n] + Part(table, permute, v[n..], Option)
            && Part(table, permute, v, NonOption) == Part(table, permute, v[n..], NonOption)
            && Part(table, permute, v, Rest) == Part(table, permute, v[n..], Rest)
  {
    hide WantsNext, OptionText, IsNonOption, Kinds, Outcomes, Pick;
    ReadOption(table, permute, v);
    var n := Width(table, v);
    var a, b := v[..n], v[n..];
    assert v == a + b;
    forall k ensures Part(table, permute, v, k) == (if k == Option then a else []) + Part(table, permute, b, k)
    {
      PickAppend(a, seq(n, _ => Option), b, Kinds(table, permute, b), k);
      PickUniform(a, Option, k);
    }
  }

  /** A non-option at the head of `v`. */
  lemma NonOptionSplits(table: seq<LongOption>, v: seq<Arg>)
    requires v != [] && IsNonOption(v[0].Text())
    ensures Part(table, true, v, Option) == Part(table, true, v[1..], Option)
    ensures Part(table, true, v, NonOption) == [v[0]] + Part(table, true, v[1..], NonOption)
    ensures Part(table, true, v, Rest) == Part(table, true, v[1..], Rest)
    ensures Outcomes(table, true, v) == Outcomes(table, true, v[1..])
  {
    hide WantsNext, Interpret, OptionText, IsNonOption;
    assert Kinds(table, true, v)[1..] == Kinds(table, true, v[1..]);
  }

  /** The word `--` at the head of `v`. */
  lemma TerminatorSplits(table: seq<LongOption>, permute: bool, v: seq<Arg>)
    requires v != [] && v[0].Text() == "--"
    ensures Part(table, permute, v, Option) == [v[0]]
    ensures Part(table, permute, v, NonOption) == []
    ensures Part(table, permute, v, Rest) == v[1..]
    ensures Outcomes(table, permute, v) == []
  {
    hide WantsNext, Interpret, OptionText;
    var tail := v[1..];
    assert Kinds(table, permute, v)[1..] == seq(|tail|, _ => Rest);
    PickUniform(tail, Rest, Option);
    PickUniform(tail, Rest, NonOption);
    PickUniform(tail, Rest, Rest);
  }

  /** The end of scanning: no words are left, or a non-option that may not be skipped. */
  lemma StopSplits(table: seq<LongOption>, permute: bool, v: seq<Arg>)
    requires v == [] || (!permute && IsNonOption(v[0].Text()))
    ensures Part(table, permute, v, Option) == []
    ensures Part(table, permute, v, NonOption) == []
    ensures Part(table, permute, v, Rest) == v
    ensures Outcomes(table, permute, v) == []
  {
    hide WantsNext, Interpret, OptionText;
    PickUniform(v, Rest, Option);
    PickUniform(v, Rest, NonOption);
    PickUniform(v, Rest, Rest);
  }

  /** Without permutation nothing is ever skipped. */
  lemma {:induction false} NothingSkipped(table: seq<LongOption>, v: seq<Arg>)
    ensures Part(table, false, v, NonOption) == []
    decreases |v|
  {
    if v == [] || IsNonOption(v[0].Text()) {
      StopSplits(table, false, v);
    } else if v[0].Text() == "--" {
      TerminatorSplits(table, false, v);
    } else {
      OptionSplits(table, false, v);
      hide Part;
      NothingSkipped(table, v[Width(table, v)..]);
    }
  }

  // ----- the layout of the vector during a scan -----

  /** The whole vector with the program name at 0 and the null pointer at `argc`. */
  ghost predicate WellFormed(w: seq<Arg>, argc: nat) {
    1 <= argc && |w| == argc + 1 && w[argc].Null? && forall i :: 0 <= i < argc ==> w[i].Word?
  }

  /** `optind` and the bounds of the skipped block fit the vector; the block reaches up to `optind` while
      `ne` is -1, and is empty while `ns` is -1. */
  predicate Bounds(argc: nat, optind: nat, ns: int, ne: int) {
    1 <= optind <= argc
    && ((ns == -1 && ne == -1) || (1 <= ns < optind && (ne == -1 || ns < ne < optind)))
  }

  /** The option words read so far. */
  function OptionsRead(now: seq<Arg>, optind: nat, ns: int, ne: int): seq<Arg>
  {
    if !Bounds(|now|, optind, ns, ne) then []
    else if ns == -1 then now[1..optind] else if ne == -1 then now[1..ns] else now[1..ns] + now[ne..optind]
  }

  /** The non-options skipped so far. */
  function Skipped(now: seq<Arg>, optind: nat, ns: int, ne: int): seq<Arg>
  {
    if !Bounds(|now|, optind, ns, ne) || ns == -1 then [] else if ne == -1 then now[ns..optind] else now[ns..ne]
  }

  /** The words still to be read. */
  function Left(now: seq<Arg>, argc: nat, optind: nat): seq<Arg> {
    if optind <= argc <= |now| then now[optind..argc] else []
  }

  /** `[ns, ne)` and `[ne, to)` exchanged, when both blocks are there. */
  function MovedForward(now: seq<Arg>, ns: int, ne: int, to: nat): seq<Arg>
  {
    if !(0 <= ns <= ne <= to <= |now|) then now else Exchanged(now, ns, ne, to)
  }

  lemma FourParts<T>(a: seq<T>, b: seq<T>, c: seq<T>, d: seq<T>)
    ensures var s := a + b + c + d;
            s[..|a| + |b|] == a + b && s[|a| + |b|..|a| + |b| + |c|] == c && s[|a| + |b| + |c|..] == d
  {
  }

  /** The four parts of an exchange. */
  lemma ExchangedParts(now: seq<Arg>, ns: nat, ne: nat, to: nat)
    requires 1 <= ns < ne < to <= |now|
    ensures var mid, ns' := Exchanged(now, ns, ne, to), to - (ne - ns);
            mid[0] == now[0] && mid[1..ns'] == now[1..ns] + now[ne..to]
            && mid[ns'..to] == now[ns..ne] && mid[to..] == now[to..]
  {
    FourParts(now[..ns], now[ne..to], now[ns..ne], now[to..]);
    var front := now[..ns] + now[ne..to];
    assert front[1..] == now[..ns][1..] + now[ne..to];
    assert now[..ns][1..] == now[1..ns];
    assert Exchanged(now, ns, ne, to)[1..|front|] == front[1..];
  }

  /** Moving the options forward changes neither list, and closes the gap. */
  lemma MoveKeepsLists(now: seq<Arg>, argc: nat, optind: nat, ns: int, ne: int)
    requires |now| == argc + 1 && Bounds(argc, optind, ns, ne)
    ensures var mid := MovedForward(now, ns, ne, optind);
            var ns' := if ns != -1 && ne != -1 then optind - (ne - ns) else ns;
            |mid| == |now| && mid[0] == now[0] && mid[optind..] == now[optind..]
            && Bounds(argc, optind, ns', -1)
            && OptionsRead(mid, optind, ns', -1) == OptionsRead(now, optind, ns, ne)
            && Skipped(mid, optind, ns', -1) == Skipped(now, optind, ns, ne)
  {
    if ns != -1 && ne != -1 {
      ExchangedParts(now, ns, ne, optind);
    }
  }

  /** Passing one more non-option. */
  lemma SkipLayout(now: seq<Arg>, argc: nat, optind: nat, ns: int)
    requires |now| == argc + 1 && Bounds(argc, optind, ns, -1) && optind < argc
    ensures var ns' := if ns == -1 then optind else ns;
            Bounds(argc, optind + 1, ns', -1)
            && OptionsRead(now, optind + 1, ns', -1) == OptionsRead(now, optind, ns, -1)
            && Skipped(now, optind + 1, ns', -1) == Skipped(now, optind, ns, -1) + [now[optind]]
  {
  }

  /** Passing `n` more option words. */
  lemma OptionLayout(now: seq<Arg>, argc: nat, optind: nat, ns: int, ne: int, n: nat)
    requires |now| == argc + 1 && Bounds(argc, optind, ns, ne) && 0 < n && optind + n <= argc
    ensures var ne' := if ns != -1 && ne == -1 then optind else ne;
            Bounds(argc, optind + n, ns, ne')
            && OptionsRead(now, optind + n, ns, ne') == OptionsRead(now, optind, ns, ne) + now[optind..optind + n]
            && Skipped(now, optind + n, ns, ne') == Skipped(now, optind, ns, ne)
  {
    var ne' := if ns != -1 && ne == -1 then optind else ne;
    var more := now[optind..optind + n];
    if ns == -1 {
      assert now[1..optind + n] == now[1..optind] + more;
    } else if ne == -1 {
    } else {
      assert now[ne..optind + n] == now[ne..optind] + more;
      assert now[1..ns] + now[ne..optind + n] == now[1..ns] + now[ne..optind] + more;
    }
  }

  /** The vector when scanning ends at `optind`. */
  lemma EndLayout(now: seq<Arg>, argc: nat, optind: nat, ns: int, ne: int)
    requires |now| == argc + 1 && Bounds(argc, optind, ns, ne)
    ensures MovedForward(now, ns, ne, optind)
         == now[..1] + OptionsRead(now, optind, ns, ne) + Skipped(now, optind, ns, ne) + now[optind..]
    ensures |MovedForward(now, ns, ne, optind)| == |now| && MovedForward(now, ns, ne, optind)[0] == now[0]
    ensures 1 + |OptionsRead(now, optind, ns, ne)|
         == if ne != -1 then optind - (ne - ns) else if ns != -1 then ns else optind
    ensures Skipped(now, optind, ns, ne) == [] ==> ns == -1
  {
    if ns == -1 {
      assert now == now[..1] + now[1..optind] + [] + now[optind..];
    } else if ne == -1 {
      assert now == now[..1] + now[1..ns] + now[ns..optind] + now[optind..];
    } else {
      assert now[..ns] == now[..1] + now[1..ns];
      assert Exchanged(now, ns, ne, optind)
          == now[..1] + (now[1..ns] + now[ne..optind]) + now[ns..ne] + now[optind..];
    }
  }

  /** An exchange keeps the words words and the null pointer last. */
  lemma ExchangeWellFormed(now: seq<Arg>, argc: nat, ns: nat, ne: nat, to: nat)
    requires WellFormed(now, argc) && ns <= ne <= to <= argc
    ensures WellFormed(Exchanged(now, ns, ne, to), argc)
  {
    var mid := Exchanged(now, ns, ne, to);
    forall i | 0 <= i < argc ensures mid[i].Word? {
      assert mid[i] == now[if ns <= i < ns + to - ne then i + (ne - ns)
                           else if ns + to - ne <= i < to then i - (to - ne) else i];
    }
  }

  /** `x` and `y` are the options and non-options of `v` met so far, and `left` is still to be read. */
  ghost predicate Splits(table: seq<LongOption>, permute: bool, v: seq<Arg>, x: seq<Arg>, y: seq<Arg>, left: seq<Arg>)
  {
    Part(table, permute, v, Option) == x + Part(table, permute, left, Option)
    && Part(table, permute, v, NonOption) == y + Part(table, permute, left, NonOption)
    && Part(table, permute, v, Rest) == Part(table, permute, left, Rest)
  }

  /** The parts of `v`. */
  ghost predicate HasParts(table: seq<LongOption>, permute: bool, v: seq<Arg>, a: seq<Arg>, b: seq<Arg>, c: seq<Arg>)
  {
    Part(table, permute, v, Option) == a && Part(table, permute, v, NonOption) == b
    && Part(table, permute, v, Rest) == c
  }

  lemma ReadNonOption(table: seq<LongOption>, v: seq<Arg>, x: seq<Arg>, y: seq<Arg>, left: seq<Arg>)
    requires Splits(table, true, v, x, y, left) && left != [] && IsNonOption(left[0].Text())
    ensures Splits(table, true, v, x, y + [left[0]], left[1..])
    ensures Outcomes(table, true, left) == Outcomes(table, true, left[1..])
  {
    hide Part, Outcomes, IsNonOption;
    NonOptionSplits(table, left);
    Assoc(y, [left[0]], Part(table, true, left[1..], NonOption));
  }

  lemma ReadOptionWords(table: seq<LongOption>, permute: bool, v: seq<Arg>, x: seq<Arg>, y: seq<Arg>, left: seq<Arg>)
    requires Splits(table, permute, v, x, y, left) && left != [] && IsOptionWord(left[0])
    ensures Splits(table, permute, v, x + left[..Width(table, left)], y, left[Width(table, left)..])
  {
    hide Part, Width, IsOptionWord;
    OptionSplits(table, permute, left);
    var n := Width(table, left);
    Assoc(x, left[..n], Part(table, permute, left[n..], Option));
  }

  lemma ReadTerminator(table: seq<LongOption>, permute: bool, v: seq<Arg>, x: seq<Arg>, y: seq<Arg>, left: seq<Arg>)
    requires Splits(table, permute, v, x, y, left) && left != [] && left[0].Text() == "--"
    ensures HasParts(table, permute, v, x + [left[0]], y, left[1..])
    ensures Outcomes(table, permute, left) == []
  {
    hide Part, Outcomes;
    TerminatorSplits(table, permute, left);
    Empty(y);
  }

  lemma ReadStop(table: seq<LongOption>, permute: bool, v: seq<Arg>, x: seq<Arg>, y: seq<Arg>, left: seq<Arg>)
    requires Splits(table, permute, v, x, y, left)
    requires left == [] || (!permute && IsNonOption(left[0].Text()))
    ensures HasParts(table, permute, v, x, y, left) && (left != [] ==> y == [])
    ensures Outcomes(table, permute, left) == []
  {
    hide Part, Outcomes, IsNonOption;
    StopSplits(table, permute, left);
    if !permute {
      NothingSkipped(table, v);
    }
    Empty(x);
    Empty(y);
  }

  /** While scanning the words `v`: the vector `now` holds the options and non-options met so far and the
      words still to be read. */
  ghost predicate Arranged(table: seq<LongOption>, permute: bool, v: seq<Arg>, argc: nat,
                           now: seq<Arg>, optind: nat, ns: int, ne: int)
  {
    WellFormed(now, argc) && Bounds(argc, optind, ns, ne)
    && Splits(table, permute, v, OptionsRead(now, optind, ns, ne), Skipped(now, optind, ns, ne), Left(now, argc, optind))
  }

  /** The vector and `optind` when scanning `v` has ended. */
  ghost predicate Finished(table: seq<LongOption>, permute: bool, v: seq<Arg>, program: Arg, now: seq<Arg>, optind: nat)
  {
    now == [program] + Partitioned(table, permute, v) + [Null] && optind == 1 + |Part(table, permute, v, Option)|
  }

  lemma ArrangedMeans(table: seq<LongOption>, permute: bool, v: seq<Arg>, argc: nat,
                      now: seq<Arg>, optind: nat, ns: int, ne: int)
    requires Arranged(table, permute, v, argc, now, optind, ns, ne)
    ensures WellFormed(now, argc) && |now| == argc + 1 && 1 <= optind <= argc && Bounds(argc, optind, ns, ne)
    ensures Splits(table, permute, v, OptionsRead(now, optind, ns, ne), Skipped(now, optind, ns, ne),
                   Left(now, argc, optind))
  {
    hide Splits;
  }

  lemma ArrangedWhen(table: seq<LongOption>, permute: bool, v: seq<Arg>, argc: nat,
                     now: seq<Arg>, optind: nat, ns: int, ne: int)
    requires WellFormed(now, argc) && Bounds(argc, optind, ns, ne)
    requires Splits(table, permute, v, OptionsRead(now, optind, ns, ne), Skipped(now, optind, ns, ne),
                    Left(now, argc, optind))
    ensures Arranged(table, permute, v, argc, now, optind, ns, ne)
  {
    hide Splits;
  }

  lemma LeftWords(now: seq<Arg>, argc: nat, optind: nat)
    requires WellFormed(now, argc) && optind <= argc
    ensures |Left(now, argc, optind)| == argc - optind
    ensures optind < argc ==> Left(now, argc, optind)[0] == now[optind]
    ensures optind < argc ==>
              (if argc - optind > 1 then Left(now, argc, optind)[1] else Null) == now[optind + 1]
              && (argc - optind > 1 <==> now[optind + 1].Word?)
  {
  }

  lemma LeftCut(now: seq<Arg>, argc: nat, optind: nat, n: nat)
    requires optind + n <= argc <= |now|
    ensures Left(now, argc, optind)[n..] == Left(now, argc, optind + n)
    ensures Left(now, argc, optind)[..n] == now[optind..optind + n]
    ensures n == 1 ==> now[optind..optind + n] == [now[optind]]
  {
    CutSlice(now, optind, argc, n);
  }

  /** Passing one more non-option after moving the options forward. */
  lemma SkipMoves(now: seq<Arg>, argc: nat, optind: nat, ns: int, ne: int)
    requires WellFormed(now, argc) && |now| == argc + 1 && Bounds(argc, optind, ns, ne) && optind < argc
    ensures var mid := MovedForward(now, ns, ne, optind);
            var ns' := if ns == -1 then optind else if ne != -1 then optind - (ne - ns) else ns;
            WellFormed(mid, argc) && |mid| == |now| && mid[0] == now[0] && Bounds(argc, optind + 1, ns', -1)
            && OptionsRead(mid, optind + 1, ns', -1) == OptionsRead(now, optind, ns, ne)
            && Skipped(mid, optind + 1, ns', -1) == Skipped(now, optind, ns, ne) + [now[optind]]
            && Left(mid, argc, optind + 1) == Left(now, argc, optind + 1)
  {
    hide OptionsRead, Skipped, WellFormed, Exchanged;
    var mid := MovedForward(now, ns, ne, optind);
    MoveKeepsLists(now, argc, optind, ns, ne);
    if ns != -1 && ne != -1 {
      ExchangeWellFormed(now, argc, ns, ne, optind);
    }
    SkipLayout(mid, argc, optind, if ns != -1 && ne != -1 then optind - (ne - ns) else ns);
    SameTail(mid, now, optind);
  }

  lemma AfterSkip(table: seq<LongOption>, v: seq<Arg>, argc: nat, now: seq<Arg>, optind: nat, ns: int, ne: int)
    requires Arranged(table, true, v, argc, now, optind, ns, ne)
    requires optind < argc && IsNonOption(now[optind].Text())
    ensures var mid := MovedForward(now, ns, ne, optind);
            var ns' := if ns == -1 then optind else if ne != -1 then optind - (ne - ns) else ns;
            Arranged(table, true, v, argc, mid, optind + 1, ns', -1)
            && |mid| == |now| && mid[0] == now[0]
            && Outcomes(table, true, Left(now, argc, optind)) == Outcomes(table, true, Left(mid, argc, optind + 1))
  {
    hide *;
    ArrangedMeans(table, true, v, argc, now, optind, ns, ne);
    LeftWords(now, argc, optind);
    LeftCut(now, argc, optind, 1);
    ReadNonOption(table, v, OptionsRead(now, optind, ns, ne), Skipped(now, optind, ns, ne), Left(now, argc, optind));
    SkipMoves(now, argc, optind, ns, ne);
    ArrangedWhen(table, true, v, argc, MovedForward(now, ns, ne, optind), optind + 1,
                 if ns == -1 then optind else if ne != -1 then optind - (ne - ns) else ns, -1);
  }

  lemma WidthMeans(table: seq<LongOption>, v: seq<Arg>)
    requires v != [] && IsOptionWord(v[0])
    ensures Width(table, v) == if |v| > 1 && WantsNext(table, OptionText(v[0].Text())) then 2 else 1
    ensures !IsNonOption(v[0].Text())
  {
    hide WantsNext, OptionText, IsNonOption;
  }

  lemma AfterOption(table: seq<LongOption>, permute: bool, v: seq<Arg>, argc: nat,
                    now: seq<Arg>, optind: nat, ns: int, ne: int)
    requires Arranged(table, permute, v, argc, now, optind, ns, ne)
    requires optind < argc && IsOptionWord(now[optind])
    ensures var text := OptionText(now[optind].Text());
            var n := if WantsNext(table, text) && now[optind + 1].Word? then 2 else 1;
            optind + n <= argc
            && Arranged(table, permute, v, argc, now, optind + n, ns, if ns != -1 && ne == -1 then optind else ne)
            && Outcomes(table, permute, Left(now, argc, optind))
            == [Interpret(table, text, now[optind + 1])] + Outcomes(table, permute, Left(now, argc, optind + n))
  {
    hide *;
    ArrangedMeans(table, permute, v, argc, now, optind, ns, ne);
    LeftWords(now, argc, optind);
    var left := Left(now, argc, optind);
    var n := Width(table, left);
    WidthMeans(table, left);
    LeftCut(now, argc, optind, n);
    ReadOptionWords(table, permute, v, OptionsRead(now, optind, ns, ne), Skipped(now, optind, ns, ne), left);
    ReadOption(table, permute, left);
    OptionLayout(now, argc, optind, ns, ne, n);
    ArrangedWhen(table, permute, v, argc, now, optind + n, ns, if ns != -1 && ne == -1 then optind else ne);
  }

  /** The scanner's final vector and `optind` are right, and the program name is still in front. */
  ghost predicate EndsWell(table: seq<LongOption>, permute: bool, v: seq<Arg>, now: seq<Arg>, optind: nat, ns: int, ne: int)
  {
    optind < |now| && Bounds(|now| - 1, optind, ns, ne)
    && var end := MovedForward(now, ns, ne, optind);
       |end| == |now| && end[0] == now[0]
       && Finished(table, permute, v, now[0], end,
                   if ne != -1 then optind - (ne - ns) else if ns != -1 then ns else optind)
  }

  /** With nothing skipped, the scan ends as it stands. */
  lemma EndsHere(table: seq<LongOption>, permute: bool, v: seq<Arg>, now: seq<Arg>, optind: nat)
    requires EndsWell(table, permute, v, now, optind, -1, -1)
    ensures now != [] && Finished(table, permute, v, now[0], now, optind)
  {
    hide Finished;
  }

  lemma NullLast(now: seq<Arg>, argc: nat, optind: nat)
    requires WellFormed(now, argc) && optind <= argc
    ensures |now| == argc + 1 && now[optind..] == Left(now, argc, optind) + [Null] && now[..1] == [now[0]]
  {
  }

  lemma Regroup<T>(p: seq<T>, a: seq<T>, b: seq<T>, c: seq<T>, z: seq<T>)
    ensures p + a + b + (c + z) == p + (a + b + c) + z
  {
  }

  lemma FinishedParts(table: seq<LongOption>, permute: bool, v: seq<Arg>, argc: nat,
                      now: seq<Arg>, optind: nat, ns: int, ne: int)
    requires WellFormed(now, argc) && Bounds(argc, optind, ns, ne)
    requires HasParts(table, permute, v, OptionsRead(now, optind, ns, ne), Skipped(now, optind, ns, ne),
                      Left(now, argc, optind))
    ensures EndsWell(table, permute, v, now, optind, ns, ne)
  {
    hide OptionsRead, Skipped, Part, MovedForward, WellFormed, Left;
    NullLast(now, argc, optind);
    EndLayout(now, argc, optind, ns, ne);
    Regroup([now[0]], OptionsRead(now, optind, ns, ne), Skipped(now, optind, ns, ne), Left(now, argc, optind), [Null]);
  }

  /** The scan ends where it stands. */
  lemma AtStop(table: seq<LongOption>, permute: bool, v: seq<Arg>, argc: nat,
               now: seq<Arg>, optind: nat, ns: int, ne: int)
    requires Arranged(table, permute, v, argc, now, optind, ns, ne)
    requires optind == argc || (!permute && IsNonOption(now[optind].Text()))
    ensures Outcomes(table, permute, Left(now, argc, optind)) == []
    ensures optind < argc ==> ns == -1
    ensures EndsWell(table, permute, v, now, optind, ns, ne)
  {
    hide *;
    ArrangedMeans(table, permute, v, argc, now, optind, ns, ne);
    LeftWords(now, argc, optind);
    ReadStop(table, permute, v, OptionsRead(now, optind, ns, ne), Skipped(now, optind, ns, ne),
             Left(now, argc, optind));
    EndLayout(now, argc, optind, ns, ne);
    FinishedParts(table, permute, v, argc, now, optind, ns, ne);
  }

  /** The scan ends behind the word `--`. */
  lemma AtTerminator(table: seq<LongOption>, permute: bool, v: seq<Arg>, argc: nat,
                     now: seq<Arg>, optind: nat, ns: int, ne: int)
    requires Arranged(table, permute, v, argc, now, optind, ns, ne)
    requires optind < argc && now[optind].Text() == "--"
    ensures Outcomes(table, permute, Left(now, argc, optind)) == []
    ensures EndsWell(table, permute, v, now, optind + 1, ns, if ns != -1 && ne == -1 then optind else ne)
  {
    hide *;
    ArrangedMeans(table, permute, v, argc, now, optind, ns, ne);
    LeftWords(now, argc, optind);
    LeftCut(now, argc, optind, 1);
    ReadTerminator(table, permute, v, OptionsRead(now, optind, ns, ne), Skipped(now, optind, ns, ne),
                   Left(now, argc, optind));
    OptionLayout(now, argc, optind, ns, ne, 1);
    FinishedParts(table, permute, v, argc, now, optind + 1, ns, if ns != -1 && ne == -1 then optind else ne);
  }

  /** What the driver sees of an outcome: the return value, `option_index` when that is 0, and `optarg`. */
  function Report(table: seq<LongOption>, o: Outcome): (int, int, Arg)
  {
    var c := ReturnValue(table, o);
    (c, if c == 0 && o.Accepted? then o.index else -1, if o.Accepted? then o.arg else Null)
  }

  lemma NothingRead(table: seq<LongOption>, permute: bool, now: seq<Arg>, argc: nat)
    requires WellFormed(now, argc)
    ensures 1 <= argc && |now| == argc + 1 && Left(now, argc, 1) == now[1..argc]
    ensures Arranged(table, permute, Left(now, argc, 1), argc, now, 1, -1, -1)
  {
    hide Part;
  }

  lemma FinishedMeans(table: seq<LongOption>, permute: bool, v: seq<Arg>, program: Arg, now: seq<Arg>, optind: nat)
    requires Finished(table, permute, v, program, now, optind)
    ensures now == [program] + Partitioned(table, permute, v) + [Null]
    ensures optind == 1 + |Part(table, permute, v, Option)|
  {
  }

  lemma ArrangedBounds(table: seq<LongOption>, permute: bool, v: seq<Arg>, argc: nat,
                       now: seq<Arg>, optind: nat, ns: int, ne: int)
    requires Arranged(table, permute, v, argc, now, optind, ns, ne)
    ensures 1 <= optind <= argc && |now| == argc + 1
  {
  }

  lemma ReportedAs(table: seq<LongOption>, o: Outcome, c: int, index: int, optarg: Arg)
    requires c == ReturnValue(table, o) && optarg == (if o.Accepted? then o.arg else Null)
    requires o.Accepted? ==> index == o.index
    ensures Report(table, o) == (c, if c == 0 then index else -1, optarg)
  {
  }

  class Scanner {
    const table: seq<LongOption>
    /** False when the environment asks for POSIX behaviour. */
    const permute: bool

    var optind: nat
    var nonoptStart: int
    var nonoptEnd: int
    var optarg: Arg
    var optopt: int
    /** The caller's `option_index`. */
    var index: int
    /** The variables that options with a non-null `flag` have set. */
    var flags: map<int, int>

    constructor (table: seq<LongOption>, permute: bool)
      ensures this.table == table && this.permute == permute
      ensures optind == 1 && nonoptStart == -1 && nonoptEnd == -1
    {
      this.table, this.permute := table, permute;
      optind, nonoptStart, nonoptEnd := 1, -1, -1;
      optarg, optopt, index, flags := Null, 63, 0, map[];
    }

    /** What a call leaves in the caller's variables for outcome `o`. */
    twostate predicate Reports(ret: int, o: Outcome)
      reads this
    {
      ret == ReturnValue(table, o)
      && optopt == OptoptAfter(table, o, old(optopt))
      && optarg == (if o.Accepted? then o.arg else Null)
      && index == (if o.Accepted? then o.index else old(index))
      && flags == (if o.Accepted? && o.index < |table| && table[o.index].flag != 0
                   then old(flags)[table[o.index].flag := table[o.index].val] else old(flags))
    }

    /** `parse_long_options` on the option text of `argv[optind]`. */
    method ParseLongOptions(argv: array<Arg>, argc: nat, place: string) returns (ret: int)
      requires WellFormed(argv[..], argc) && optind < argc && optarg.Null?
      modifies this
      ensures Reports(ret, Interpret(table, place, argv[old(optind) + 1]))
      ensures optind == old(optind)
                        + if WantsNext(table, place) && argv[old(optind) + 1].Word? then 2 else 1
      ensures nonoptStart == old(nonoptStart) && nonoptEnd == old(nonoptEnd)
    {
      optind := optind + 1;
      var eq := EqualsAt(place);
      var hasEqual := eq < |place|;
      var found, ambiguous := FindLongOption(table, place[..eq]);
      if ambiguous {
        optopt := 0;
        return BADCH;
      }
      if found == -1 {
        optopt := 0;
        return BADCH;
      }
      var option := table[found];
      if option.hasArg == NoArgument && hasEqual {
        optopt := if option.flag == 0 then option.val else 0;
        return BADCH;
      }
      if option.hasArg == RequiredArgument || option.hasArg == OptionalArgument {
        if hasEqual {
          optarg := Word(place[eq + 1..]);
        } else if option.hasArg == RequiredArgument {
          optarg := argv[optind];
          optind := optind + 1;
        }
      }
      if option.hasArg == RequiredArgument && optarg.Null? {
        optopt := if option.flag == 0 then option.val else 0;
        optind := optind - 1;
        return BADCH;
      }
      index := found;
      if option.flag != 0 {
        flags := flags[option.flag := option.val];
        return 0;
      }
      return option.val;
    }

    /** The `start:` loop of `getopt_internal`: pass over non-options, moving the options read so far in
        front of the block that is being skipped, up to the next word that ends the call. */
    method SkipNonOptions(argc: nat, argv: array<Arg>, ghost v: seq<Arg>)
      requires Arranged(table, permute, v, argc, argv[..], optind, nonoptStart, nonoptEnd)
      modifies `optind, `nonoptStart, `nonoptEnd, argv
      ensures Arranged(table, permute, v, argc, argv[..], optind, nonoptStart, nonoptEnd)
      ensures argv[0] == old(argv[0]) && old(optind) <= optind <= argc
      ensures Outcomes(table, permute, Left(old(argv[..]), argc, old(optind))) == Outcomes(table, permute, Left(argv[..], argc, optind))
      ensures optind < argc ==> !permute || !IsNonOption(argv[optind].Text())
    {
      hide Outcomes, IsNonOption, Exchanged, OptionsRead, Skipped, Left, Splits;
      while permute && optind < argc && IsNonOption(argv[optind].text)
        invariant Arranged(table, permute, v, argc, argv[..], optind, nonoptStart, nonoptEnd)
        invariant argv[0] == old(argv[0]) && old(optind) <= optind
        invariant Outcomes(table, permute, Left(old(argv[..]), argc, old(optind))) == Outcomes(table, permute, Left(argv[..], argc, optind))
        decreases argc - optind
      {
        AfterSkip(table, v, argc, argv[..], optind, nonoptStart, nonoptEnd);
        if nonoptStart == -1 {
          nonoptStart := optind;
        } else if nonoptEnd != -1 {
          PermuteArgs(nonoptStart, nonoptEnd, optind, argv);
          nonoptStart := optind - (nonoptEnd - nonoptStart);
          nonoptEnd := -1;
        }
        optind := optind + 1;
        assert argv[..][0] == argv[0];
      }
    }

    /** The end of the scan: exchange what is still to be exchanged and put `optind` behind the options. Behind a
        `--` the block of non-options is always closed. */
    method EndScan(argv: array<Arg>, ghost v: seq<Arg>)
      requires EndsWell(table, permute, v, argv[..], optind, nonoptStart, nonoptEnd)
      modifies `optind, `nonoptStart, `nonoptEnd, argv
      ensures argv.Length > 0 && argv[0] == old(argv[0])
      ensures Finished(table, permute, v, argv[0], argv[..], optind) && nonoptStart == -1 && nonoptEnd == -1
    {
      hide Finished, Exchanged;
      ghost var now := argv[..];
      if nonoptEnd != -1 {
        PermuteArgs(nonoptStart, nonoptEnd, optind, argv);
        optind := optind - (nonoptEnd - nonoptStart);
      } else if nonoptStart != -1 {
        optind := nonoptStart;
      }
      nonoptStart, nonoptEnd := -1, -1;
      assert argv[..][0] == argv[0];
    }

    /** `getopt_internal` with `FLAG_PERMUTE | FLAG_LONGONLY` and no short options, scanning the words `v`.
        -1 is returned exactly when no option is left, and then the vector is partitioned. */
    method GetoptLongOnly(argc: nat, argv: array<Arg>, ghost v: seq<Arg>) returns (ret: int)
      requires Arranged(table, permute, v, argc, argv[..], optind, nonoptStart, nonoptEnd)
      requires forall o :: o in table ==> o.val != -1
      modifies this, argv
      ensures argv[0] == old(argv[0])
      ensures ret == -1 <==> Outcomes(table, permute, Left(old(argv[..]), argc, old(optind))) == []
      ensures ret == -1 ==>
                Finished(table, permute, v, argv[0], argv[..], optind) && nonoptStart == -1 && nonoptEnd == -1
      ensures ret != -1 ==>
                Arranged(table, permute, v, argc, argv[..], optind, nonoptStart, nonoptEnd)
                && old(optind) < optind
                && Reports(ret, Outcomes(table, permute, Left(old(argv[..]), argc, old(optind)))[0])
                && Outcomes(table, permute, Left(argv[..], argc, optind))
                   == Outcomes(table, permute, Left(old(argv[..]), argc, old(optind)))[1..]
    {
      hide Splits, Outcomes, IsNonOption, OptionText, Interpret, WantsNext, MatchOf, Exchanged, OptionsRead, Skipped,
           Finished, Left, EndsWell;
      optarg := Null;
      SkipNonOptions(argc, argv, v);
      ghost var now := argv[..];
      assert now[0] == argv[0];
      if optind >= argc {
        AtStop(table, permute, v, argc, now, optind, nonoptStart, nonoptEnd);
        EndScan(argv, v);
        return -1;
      }
      var word := argv[optind].text;
      if IsNonOption(word) {
        AtStop(table, permute, v, argc, now, optind, nonoptStart, nonoptEnd);
        ArrangedMeans(table, permute, v, argc, now, optind, nonoptStart, nonoptEnd);
        EndsHere(table, permute, v, now, optind);
        return -1;
      }
      ghost var skippedTo := nonoptEnd;
      if nonoptStart != -1 && nonoptEnd == -1 {
        nonoptEnd := optind;
      }
      if word == "--" {
        AtTerminator(table, permute, v, argc, now, optind, nonoptStart, skippedTo);
        optind := optind + 1;
        EndScan(argv, v);
        return -1;
      }
      AfterOption(table, permute, v, argc, now, optind, nonoptStart, skippedTo);
      ret := ParseLongOptions(argv, argc, OptionText(word));
      assert now == argv[..];
    }

    /** The driver: call the scanner until it returns -1, as `parseArguments` does. The reported options
        and their arguments are those of the vector as typed, and the vector ends as a stable partition
        with `optind` at the first word behind the options. */
    method ParseArguments(argc: nat, argv: array<Arg>) returns (reports: seq<(int, int, Arg)>)
      requires WellFormed(argv[..], argc)
      requires optind == 1 && nonoptStart == -1 && nonoptEnd == -1
      requires forall o :: o in table ==> o.val != -1
      modifies this, argv
      ensures var v := old(argv[1..argc]);
              argv[..] == [old(argv[0])] + Partitioned(table, permute, v) + [Null]
              && optind == 1 + |Part(table, permute, v, Option)|
              && |reports| == |Outcomes(table, permute, v)|
              && forall i :: 0 <= i < |reports| ==> reports[i] == Report(table, Outcomes(table, permute, v)[i])
      ensures nonoptStart == -1 && nonoptEnd == -1
    {
      hide Outcomes, Part, Partitioned, Report, ReturnValue, OptoptAfter, Arranged, WellFormed, Left, Finished;
      NothingRead(table, permute, argv[..], argc);
      ghost var v := Left(argv[..], argc, 1);
      ghost var all := Outcomes(table, permute, v);
      reports := [];
      ghost var done, left := [], all;
      Empty(all);
      while true
        invariant optind <= argc < argv.Length && argv[0] == old(argv[0])
        invariant Arranged(table, permute, v, argc, argv[..], optind, nonoptStart, nonoptEnd)
        invariant all == done + left && left == Outcomes(table, permute, Left(argv[..], argc, optind))
        invariant |reports| == |done| && forall i :: 0 <= i < |reports| ==> reports[i] == Report(table, done[i])
        decreases argc - optind
      {
        var c := GetoptLongOnly(argc, argv, v);
        if c == -1 {
          FinishedMeans(table, permute, v, argv[0], argv[..], optind);
          Empty(done);
          break;
        }
        ArrangedBounds(table, permute, v, argc, argv[..], optind, nonoptStart, nonoptEnd);
        ReportedAs(table, left[0], c, index, optarg);
        Shift(done, left);
        reports := reports + [(c, if c == 0 then index else -1, optarg)];
        done, left := done + [left[0]], left[1..];
      }
    }
  }
}
