/** What a scan reports for options as a user types them: one or two dashes, a name or the start of one, and an
    argument behind `=` or in the next word.
  */
module GetoptAsTyped {
  import opened Getopt
  import opened Sequences

  // ----- what a name means -----

  /** The entry at `i` is the first with just this name. Or there is none, the entry is the first whose name starts
      so, and all others whose names start so agree with it. */
  ghost predicate Means(table: seq<LongOption>, name: string, i: nat) {
    i < |table|
    && if table[i].name == name then forall j :: 0 <= j < i ==> table[j].name != name
       else
         (forall j :: 0 <= j < |table| ==> table[j].name != name)
         && name <= table[i].name
         && (forall j :: 0 <= j < i ==> !(name <= table[j].name))
         && (forall j :: i < j < |table| && name <= table[j].name ==>
               table[j].hasArg == table[i].hasArg && table[j].flag == table[i].flag && table[j].val == table[i].val)
  }

  /** No name starts so. */
  ghost predicate Unknown(table: seq<LongOption>, name: string) {
    forall j :: 0 <= j < |table| ==> !(name <= table[j].name)
  }

  /** No entry has just this name, and two whose names start so differ in more than the name. */
  ghost predicate Disputed(table: seq<LongOption>, name: string) {
    (forall j :: 0 <= j < |table| ==> table[j].name != name)
    && exists i, j ::
         0 <= i < j < |table| && name <= table[i].name && name <= table[j].name
         && (table[i].hasArg != table[j].hasArg || table[i].flag != table[j].flag || table[i].val != table[j].val)
  }

  lemma SameIsEquivalence()
    ensures forall x, y {:trigger SameInterpretation(x, y)} :: SameInterpretation(x, y) ==> SameInterpretation(y, x)
    ensures forall x {:trigger SameInterpretation(x, x)} :: SameInterpretation(x, x)
    ensures forall x, y, z {:trigger SameInterpretation(x, y), SameInterpretation(y, z)} ::
              SameInterpretation(x, y) && SameInterpretation(y, z) ==> SameInterpretation(x, z)
  {
  }

  lemma ContestedMeans(table: seq<LongOption>, name: string, first: nat)
    requires first < |table| && first == FirstAbbreviated(table, name)
    ensures Contested(table, name, first, |table|) <==>
            exists i, j ::
              0 <= i < j < |table| && name <= table[i].name && name <= table[j].name
              && !SameInterpretation(table[i], table[j])
  {
    hide FirstAbbreviated, SameInterpretation;
    SameIsEquivalence();
    if Contested(table, name, first, |table|) {
      var k :| 0 <= k < |table| && name <= table[k].name && !SameInterpretation(table[k], table[first]);
      assert first < k;
    }
  }

  /** The search decides which of the three it is. */
  lemma MatchMeans(table: seq<LongOption>, name: string, i: nat)
    ensures MatchOf(table, name) == Matched(i) <==> Means(table, name, i)
    ensures MatchOf(table, name) == NoMatch <==> Unknown(table, name)
    ensures MatchOf(table, name) == Ambiguous <==> Disputed(table, name)
  {
    hide FirstExact, FirstAbbreviated, Contested;
    var exact, first := FirstExact(table, name), FirstAbbreviated(table, name);
    if exact < |table| {
      assert name <= table[exact].name;
    } else if first < |table| {
      ContestedMeans(table, name, first);
    }
  }

  // ----- the text of an option -----

  lemma {:induction false} EqualsBehind(name: string, value: string)
    requires '=' !in name
    ensures EqualsAt(name) == |name| && EqualsAt(name + ("=" + value)) == |name|
  {
    if name != "" {
      assert (name + ("=" + value))[1..] == name[1..] + ("=" + value);
      EqualsBehind(name[1..], value);
    }
  }

  /** A name and a value are told apart at the `=`. */
  lemma {:induction false} NameAndValue(name: string, value: string)
    requires '=' !in name
    ensures NameOf(name) == name && !HasValue(name)
    ensures NameOf(name + ("=" + value)) == name
    ensures HasValue(name + ("=" + value)) && ValueOf(name + ("=" + value)) == value
  {
    EqualsBehind(name, value);
    var text := name + ("=" + value);
    assert text[..|name|] == name && text[|name| + 1..] == value;
  }

  /** Dashes in front of a text. One dash does not do for a text that starts with another. */
  predicate Dashes(dashes: string, text: string) {
    text != "" && (dashes == "--" || (dashes == "-" && text[0] != '-'))
  }

  lemma DashedIsOption(dashes: string, text: string)
    requires Dashes(dashes, text)
    ensures IsOptionWord(Word(dashes + text)) && OptionText(dashes + text) == text
  {
    var word := dashes + text;
    assert |word| >= 2 && word[0] == '-';
    if dashes == "--" {
      assert word[2..] == text;
      assert |word| > 2;
    } else {
      assert word[1] != '-' && word[1..] == text;
    }
  }

  /** An option at the head of the words. */
  lemma DashedFirst(table: seq<LongOption>, permute: bool, dashes: string, text: string, rest: seq<Arg>)
    requires Dashes(dashes, text)
    ensures var next := if rest == [] then Null else rest[0];
            Outcomes(table, permute, [Word(dashes + text)] + rest)
            == [Interpret(table, text, next)]
               + Outcomes(table, permute, if rest != [] && WantsNext(table, text) then rest[1..] else rest)
  {
    hide WantsNext, Interpret, IsNonOption, OptionText, Outcomes, Dashes;
    DashedIsOption(dashes, text);
    var v := [Word(dashes + text)] + rest;
    ReadOption(table, permute, v);
    assert v[1..] == rest && (rest != [] ==> v[2..] == rest[1..] && v[1] == rest[0]);
  }

  // ----- what is reported -----

  lemma MeansBound(table: seq<LongOption>, name: string, i: nat)
    requires Means(table, name, i)
    ensures i < |table|
  {
  }

  /** An option with a value behind `=`: accepted with that value, unless it takes none. */
  lemma WithValue(table: seq<LongOption>, permute: bool, dashes: string, name: string, value: string,
                  rest: seq<Arg>, i: nat)
    requires '=' !in name && Dashes(dashes, name + ("=" + value)) && Means(table, name, i)
    ensures Outcomes(table, permute, [Word(dashes + (name + ("=" + value)))] + rest)
            == [if table[i].hasArg == NoArgument then UnexpectedArgument(i) else Accepted(i, Word(value))]
               + Outcomes(table, permute, rest)
  {
    hide Outcomes, MatchOf, Means, NameOf, HasValue, ValueOf, Dashes;
    NameAndValue(name, value);
    MatchMeans(table, name, i);
    MeansBound(table, name, i);
    DashedFirst(table, permute, dashes, name + ("=" + value), rest);
  }

  lemma NoWords(table: seq<LongOption>, permute: bool)
    ensures Outcomes(table, permute, []) == []
  {
  }

  /** An option without: the next word is the argument of one that requires it, and of no other. */
  lemma WithoutValue(table: seq<LongOption>, permute: bool, dashes: string, name: string, rest: seq<Arg>, i: nat)
    requires '=' !in name && Dashes(dashes, name) && Means(table, name, i)
    requires forall j :: 0 <= j < |rest| ==> rest[j].Word?
    ensures var os := Outcomes(table, permute, [Word(dashes + name)] + rest);
            if table[i].hasArg != RequiredArgument then os == [Accepted(i, Null)] + Outcomes(table, permute, rest)
            else if rest == [] then os == [MissingArgument(i)]
            else os == [Accepted(i, rest[0])] + Outcomes(table, permute, rest[1..])
  {
    hide Outcomes, MatchOf, Means, NameOf, HasValue, ValueOf, Dashes;
    NameAndValue(name, "");
    MatchMeans(table, name, i);
    MeansBound(table, name, i);
    NoWords(table, permute);
    DashedFirst(table, permute, dashes, name, rest);
  }

  /** A name that means nothing, or no one thing, is reported so, with or without a value, and the scan goes on
      behind the word. */
  lemma NotUnderstood(table: seq<LongOption>, permute: bool, dashes: string, name: string, text: string,
                      value: string, rest: seq<Arg>)
    requires '=' !in name && Dashes(dashes, text) && (text == name || text == name + ("=" + value))
    ensures var os := Outcomes(table, permute, [Word(dashes + text)] + rest);
            os != [] && (os[0] == UnknownName <==> Unknown(table, name))
            && (os[0] == AmbiguousName <==> Disputed(table, name))
            && (os[0] == UnknownName || os[0] == AmbiguousName ==> os[1..] == Outcomes(table, permute, rest))
  {
    hide Outcomes, MatchOf, NameOf, HasValue, ValueOf, Dashes, Unknown, Disputed, Means;
    NameAndValue(name, value);
    MatchMeans(table, name, 0);
    DashedFirst(table, permute, dashes, text, rest);
  }

  /** A word that is not a dash and something more is passed over, or ends the scan, and so does `--`. */
  lemma OtherWords(table: seq<LongOption>, permute: bool, word: string, rest: seq<Arg>)
    ensures |word| < 2 || word[0] != '-' ==>
              Outcomes(table, permute, [Word(word)] + rest) == if permute then Outcomes(table, permute, rest) else []
    ensures word == "--" ==> Outcomes(table, permute, [Word(word)] + rest) == []
  {
    assert ([Word(word)] + rest)[1..] == rest;
  }

  /** How an accepted option is reported: by the value in the table; or by 0 and its index, when a variable takes
      that value. */
  lemma AcceptedReport(table: seq<LongOption>, i: nat, arg: Arg)
    requires i < |table|
    ensures table[i].flag == 0 && table[i].val != 0 ==> Report(table, Accepted(i, arg)) == (table[i].val, -1, arg)
    ensures table[i].flag != 0 || table[i].val == 0 ==> Report(table, Accepted(i, arg)) == (0, i, arg)
  {
  }

  /** Every error is reported by a question mark, and `optopt` tells which option misses its argument or has one too
      many. */
  lemma ErrorReport(table: seq<LongOption>, o: Outcome, optopt: int)
    requires !o.Accepted? && (o.MissingArgument? || o.UnexpectedArgument? ==> o.index < |table|)
    ensures Report(table, o) == ('?' as int, -1, Null)
    ensures OptoptAfter(table, o, optopt)
            == if (o.MissingArgument? || o.UnexpectedArgument?) && table[o.index].flag == 0
               then table[o.index].val else 0
  {
  }

  // ----- the table of xdccget -----

  function Flag(name: string, val: int): LongOption {
    LongOption(name, NoArgument, 0, val)
  }

  function Setting(name: string, val: int): LongOption {
    LongOption(name, RequiredArgument, 0, val)
  }

  const OPTIONS: seq<LongOption> := [
    Flag("verbose", 'v' as int), Flag("warn", 'w' as int), Flag("quiet", 'q' as int), Flag("information", 'i' as int),
    Flag("checksum-verify", 0), Flag("ipv4", '4' as int), Flag("ipv6", '6' as int), Setting("port", 'p' as int),
    Setting("directory", 'd' as int), Setting("nick", 'n' as int), Setting("login", 'l' as int),
    Flag("accept-all-nicks", 0), Flag("accept-all-certs", 0), Flag("dont-confirm-offsets", 0),
    Setting("throttle", 0), Setting("delay", 0), Setting("listen-ip", 0), Setting("listen-port", 0),
    Flag("version", 0)]

  lemma PortMeans()
    ensures Means(OPTIONS, "port", 7)
  {
  }

  lemma ListenStarts()
    ensures "listen" <= "listen-ip" && "listen" <= "listen-port"
  {
  }

  lemma OthersStartElsewhere(j: nat)
    requires j < |OPTIONS| && j != 16 && j != 17
    ensures !("listen" <= OPTIONS[j].name)
  {
    var name := OPTIONS[j].name;
    assert "listen"[0] == 'l' && "listen"[1] == 'i';
    assert name[0] != 'l' || name[1] != 'i';
  }

  lemma ListenMeans()
    ensures Means(OPTIONS, "listen", 16)
  {
    ListenStarts();
    forall j | 0 <= j < |OPTIONS| && j != 16 && j != 17 ensures !("listen" <= OPTIONS[j].name) {
      OthersStartElsewhere(j);
    }
    assert "listen" <= "listen";
  }

  lemma VDisputed()
    ensures Disputed(OPTIONS, "v")
  {
    assert "v" <= OPTIONS[0].name && "v" <= OPTIONS[18].name;
  }

  /** `--port=6667`, as in the usage text, is the port. */
  lemma PortExample(permute: bool, rest: seq<Arg>)
    ensures var os := Outcomes(OPTIONS, permute, [Word("--port=6667")] + rest);
            os != [] && Report(OPTIONS, os[0]) == ('p' as int, -1, Word("6667"))
  {
    hide Outcomes, Means;
    PortMeans();
    assert "port" + ("=" + "6667") == "port=6667" && "--" + "port=6667" == "--port=6667";
    WithValue(OPTIONS, permute, "--", "port", "6667", rest, 7);
    AcceptedReport(OPTIONS, 7, Word("6667"));
  }

  /** `--listen=6667` is taken for the address to listen on: nothing in the table but the name tells `listen-port`
      from `listen-ip`. */
  lemma ListenExample(permute: bool, rest: seq<Arg>)
    ensures var os := Outcomes(OPTIONS, permute, [Word("--listen=6667")] + rest);
            os != [] && Report(OPTIONS, os[0]) == (0, 16, Word("6667")) && OPTIONS[16].name == "listen-ip"
  {
    hide Outcomes, Means;
    ListenMeans();
    assert "listen" + ("=" + "6667") == "listen=6667" && "--" + "listen=6667" == "--listen=6667";
    WithValue(OPTIONS, permute, "--", "listen", "6667", rest, 16);
    AcceptedReport(OPTIONS, 16, Word("6667"));
  }

  /** `-v` is refused: it may be `verbose` or `version`. */
  lemma VExample(permute: bool, rest: seq<Arg>)
    ensures var os := Outcomes(OPTIONS, permute, [Word("-v")] + rest);
            os != [] && os[0] == AmbiguousName && Report(OPTIONS, os[0]) == ('?' as int, -1, Null)
  {
    hide Outcomes, Disputed;
    VDisputed();
    assert "-" + "v" == "-v";
    NotUnderstood(OPTIONS, permute, "-", "v", "v", "", rest);
    ErrorReport(OPTIONS, AmbiguousName, 0);
  }
}
