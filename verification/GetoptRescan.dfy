/** Scanning an already permuted vector again.

    Permuting is meant to be invisible to a program that parses its arguments twice: the second scan
    should report the same options and move nothing. That holds except in one family: when the typed
    vector ends in an option whose argument is missing and non-options were skipped before it, the
    permuted vector puts a non-option where the argument was looked for.
  */
module GetoptRescan {
  import opened Getopt
  import opened Sequences

  /** A vector of words, as typed. */
  predicate AllWords(v: seq<Arg>) {
    forall i :: 0 <= i < |v| ==> v[i].Word?
  }

  /** The scan of `v` ends in front of some words: at `--`. */
  predicate Stops(table: seq<LongOption>, v: seq<Arg>)
    decreases |v|
  {
    if v == [] then false
    else if IsNonOption(v[0].Text()) then Stops(table, v[1..])
    else if v[0].Text() == "--" then true
    else Stops(table, v[Width(table, v)..])
  }

  /** The last thing a scan of `v` reports is a missing argument. */
  predicate EndsMissing(table: seq<LongOption>, v: seq<Arg>) {
    var os := Outcomes(table, true, v);
    os != [] && os[|os| - 1].MissingArgument?
  }

  /** A missing argument at the end, with skipped non-options in front of it. */
  predicate Dangling(table: seq<LongOption>, v: seq<Arg>) {
    EndsMissing(table, v) && Part(table, true, v, NonOption) != []
  }

  /** `Stops`, one word at a time. */
  lemma StopsStep(table: seq<LongOption>, v: seq<Arg>)
    requires v != []
    ensures IsNonOption(v[0].Text()) ==> Stops(table, v) == Stops(table, v[1..])
    ensures v[0].Text() == "--" ==> Stops(table, v)
    ensures IsOptionWord(v[0]) ==> Stops(table, v) == Stops(table, v[Width(table, v)..])
  {
    hide WantsNext, OptionText, Width;
  }

  lemma NextIrrelevant(table: seq<LongOption>, text: string, x: Arg, y: Arg)
    ensures !WantsNext(table, text) || x == y ==> Interpret(table, text, x) == Interpret(table, text, y)
    ensures Interpret(table, text, x).MissingArgument? <==> WantsNext(table, text) && x.Null?
  {
    hide MatchOf;
  }

  /** Reading the option at the head of `u` does not depend on what follows its words, unless it wants a
      word that is not there. */
  lemma SameOption(table: seq<LongOption>, v: seq<Arg>, u: seq<Arg>)
    requires v != [] && IsOptionWord(v[0]) && AllWords(v)
    requires Width(table, v) <= |u| && u[..Width(table, v)] == v[..Width(table, v)]
    requires WantsNext(table, OptionText(v[0].Text())) && |v| == 1 ==> |u| == 1
    ensures Kinds(table, true, u)
         == seq(Width(table, v), _ => Option) + Kinds(table, true, u[Width(table, v)..])
    ensures Outcomes(table, true, v) != []
    ensures Outcomes(table, true, u) == [Outcomes(table, true, v)[0]] + Outcomes(table, true, u[Width(table, v)..])
    ensures Outcomes(table, true, v)[0].MissingArgument? ==>
              |v| == 1 && WantsNext(table, OptionText(v[0].Text()))
  {
    hide WantsNext, OptionText, IsNonOption, Kinds, Outcomes, Interpret;
    var n := Width(table, v);
    assert v[0] == v[..n][0] == u[..n][0] == u[0];
    if n == 2 {
      assert v[1] == v[..n][1] == u[..n][1] == u[1];
    }
    ReadOption(table, true, v);
    ReadOption(table, true, u);
    var text := OptionText(v[0].Text());
    NextIrrelevant(table, text, if |v| > 1 then v[1] else Null, if |u| > 1 then u[1] else Null);
  }

  /** Scanning the options of `v` followed by `t`: the options are read as in `v`, and then `t` is read on
      its own, or is left alone when `v` has stopped. */
  ghost predicate ReadsAsTyped(table: seq<LongOption>, v: seq<Arg>, t: seq<Arg>) {
    var options := Part(table, true, v, Option);
    && Kinds(table, true, options + t)
       == seq(|options|, _ => Option) + (if Stops(table, v) then seq(|t|, _ => Rest) else Kinds(table, true, t))
    && Outcomes(table, true, options + t)
       == Outcomes(table, true, v) + (if Stops(table, v) then [] else Outcomes(table, true, t))
  }

  lemma EmptyScan(table: seq<LongOption>)
    ensures Outcomes(table, true, []) == [] && forall k :: Part(table, true, [], k) == []
  {
  }

  /** The options of `v` and `t`, cut behind the first option. */
  lemma FirstOption(table: seq<LongOption>, v: seq<Arg>, t: seq<Arg>)
    requires v != [] && IsOptionWord(v[0])
    ensures var n := Width(table, v);
            var rest := Part(table, true, v[n..], Option);
            var u := Part(table, true, v, Option) + t;
            Part(table, true, v, Option) == v[..n] + rest
            && n <= |u| && u[..n] == v[..n] && u[n..] == rest + t
            && (|v| == 1 ==> rest == [] && (t == [] ==> |u| == 1))
  {
    hide WantsNext, OptionText, IsNonOption, IsOptionWord, Kinds, Pick, Stops;
    OptionSplits(table, true, v);
    var n := Width(table, v);
    assert Part(table, true, v, Option) + t == v[..n] + (Part(table, true, v[n..], Option) + t);
    EmptyScan(table);
    assert |v| == 1 ==> v[n..] == [];
  }

  lemma GlueReading(table: seq<LongOption>, v: seq<Arg>, t: seq<Arg>, n: nat)
    requires n <= |v|
    requires ReadsAsTyped(table, v[n..], t) && Stops(table, v) == Stops(table, v[n..])
    requires Part(table, true, v, Option) == v[..n] + Part(table, true, v[n..], Option)
    requires var rest := Part(table, true, v[n..], Option) + t;
             var u := Part(table, true, v, Option) + t;
             Kinds(table, true, u) == seq(n, _ => Option) + Kinds(table, true, rest)
             && Outcomes(table, true, v) != []
             && Outcomes(table, true, u) == [Outcomes(table, true, v)[0]] + Outcomes(table, true, rest)
             && Outcomes(table, true, v) == [Outcomes(table, true, v)[0]] + Outcomes(table, true, v[n..])
    ensures ReadsAsTyped(table, v, t)
  {
    hide Kinds, Outcomes, Part, Stops;
    var m := |Part(table, true, v[n..], Option)|;
    assert seq(n, _ => Option) + seq(m, _ => Option) == seq(n + m, _ => Option);
  }

  lemma ReadsOneMore(table: seq<LongOption>, v: seq<Arg>, t: seq<Arg>)
    requires v != [] && IsOptionWord(v[0]) && AllWords(v)
    requires WantsNext(table, OptionText(v[0].Text())) && |v| == 1 ==> t == []
    requires ReadsAsTyped(table, v[Width(table, v)..], t)
    ensures ReadsAsTyped(table, v, t)
  {
    hide *;
    FirstOption(table, v, t);
    SameOption(table, v, Part(table, true, v, Option) + t);
    SameOption(table, v, v);
    StopsStep(table, v);
    GlueReading(table, v, t, Width(table, v));
  }

  lemma ReadsNothing(table: seq<LongOption>, t: seq<Arg>)
    ensures ReadsAsTyped(table, [], t)
  {
    EmptyScan(table);
    Empty(t);
    hide Kinds, Outcomes, Part;
    assert seq(0, _ => Option) == [];
    Empty(Kinds(table, true, t));
  }

  lemma WordsBehind(v: seq<Arg>, n: nat)
    requires AllWords(v) && n <= |v|
    ensures AllWords(v[n..])
  {
  }

  lemma SkipsOne(table: seq<LongOption>, v: seq<Arg>)
    requires v != [] && IsNonOption(v[0].Text())
    ensures EndsMissing(table, v) == EndsMissing(table, v[1..])
  {
    hide Kinds, Outcomes, Part, IsNonOption;
    NonOptionSplits(table, v);
  }

  lemma ReadsSkipped(table: seq<LongOption>, v: seq<Arg>, t: seq<Arg>)
    requires v != [] && IsNonOption(v[0].Text()) && ReadsAsTyped(table, v[1..], t)
    ensures ReadsAsTyped(table, v, t)
  {
    hide Kinds, Outcomes, Part, IsNonOption, Stops;
    NonOptionSplits(table, v);
    StopsStep(table, v);
  }

  lemma ReadsTerminator(table: seq<LongOption>, v: seq<Arg>, t: seq<Arg>)
    requires v != [] && v[0].Text() == "--"
    ensures ReadsAsTyped(table, v, t)
  {
    hide Part, Stops, WantsNext, Interpret, OptionText;
    TerminatorSplits(table, true, v);
    StopsStep(table, v);
    assert seq(1, _ => Option) == [Option];
  }

  lemma OptionWordOf(a: Arg)
    requires !IsNonOption(a.Text()) && a.Text() != "--"
    ensures IsOptionWord(a)
  {
  }

  lemma LoneMissing(table: seq<LongOption>, v: seq<Arg>)
    requires |v| == 1 && IsOptionWord(v[0]) && WantsNext(table, OptionText(v[0].Text()))
    ensures Outcomes(table, true, v) != [] && Outcomes(table, true, v)[0].MissingArgument?
  {
    hide WantsNext, MatchOf, Interpret, OptionText, IsOptionWord;
    ReadOption(table, true, v);
    NextIrrelevant(table, OptionText(v[0].Text()), Null, Null);
  }

  /** A missing argument is reported last, and only when the scan runs off the end. */
  lemma MissingAtEnd(table: seq<LongOption>, v: seq<Arg>)
    requires v != [] && IsOptionWord(v[0]) && AllWords(v)
    ensures var n := Width(table, v);
            EndsMissing(table, v) ==
              (EndsMissing(table, v[n..]) || (|v| == 1 && WantsNext(table, OptionText(v[0].Text()))))
    ensures |v| == 1 ==> v[Width(table, v)..] == []
  {
    hide Kinds, Outcomes, WantsNext, OptionText, Interpret, IsOptionWord;
    var n := Width(table, v);
    SameOption(table, v, v);
    EmptyScan(table);
    assert |v| == 1 ==> v[n..] == [];
    if |v| == 1 && WantsNext(table, OptionText(v[0].Text())) {
      LoneMissing(table, v);
    }
  }

  lemma {:induction false} RescanOptions(table: seq<LongOption>, v: seq<Arg>, t: seq<Arg>)
    requires AllWords(v) && (EndsMissing(table, v) ==> t == [])
    ensures ReadsAsTyped(table, v, t)
    decreases |v|
  {
    hide *;
    if v == [] {
      ReadsNothing(table, t);
    } else if IsNonOption(v[0].Text()) {
      WordsBehind(v, 1);
      SkipsOne(table, v);
      RescanOptions(table, v[1..], t);
      ReadsSkipped(table, v, t);
    } else if v[0].Text() == "--" {
      ReadsTerminator(table, v, t);
    } else {
      OptionWordOf(v[0]);
      WordsBehind(v, Width(table, v));
      MissingAtEnd(table, v);
      RescanOptions(table, v[Width(table, v)..], t);
      ReadsOneMore(table, v, t);
    }
  }

  /** The skipped words are non-options, nothing is left over unless the scan stopped, and a scan that
      stopped did not end in a missing argument. */
  ghost predicate WellShaped(table: seq<LongOption>, v: seq<Arg>) {
    (forall i :: 0 <= i < |Part(table, true, v, NonOption)| ==>
       IsNonOption(Part(table, true, v, NonOption)[i].Text()))
    && (!Stops(table, v) ==> Part(table, true, v, Rest) == [])
    && (Stops(table, v) ==> !EndsMissing(table, v))
  }

  lemma ShapeOfNothing(table: seq<LongOption>)
    ensures WellShaped(table, [])
  {
    EmptyScan(table);
  }

  lemma ShapeBehindNonOption(table: seq<LongOption>, v: seq<Arg>)
    requires v != [] && IsNonOption(v[0].Text()) && WellShaped(table, v[1..])
    ensures WellShaped(table, v)
  {
    hide Kinds, Outcomes, Part, Stops, EndsMissing, IsNonOption;
    NonOptionSplits(table, v);
    StopsStep(table, v);
    SkipsOne(table, v);
  }

  lemma ShapeAtTerminator(table: seq<LongOption>, v: seq<Arg>)
    requires v != [] && v[0].Text() == "--"
    ensures WellShaped(table, v)
  {
    hide Kinds, Outcomes, Part, Stops, IsNonOption;
    TerminatorSplits(table, true, v);
    StopsStep(table, v);
  }

  lemma NothingStops(table: seq<LongOption>)
    ensures !Stops(table, [])
  {
  }

  lemma ShapeBehindOption(table: seq<LongOption>, v: seq<Arg>)
    requires v != [] && IsOptionWord(v[0]) && AllWords(v) && WellShaped(table, v[Width(table, v)..])
    ensures WellShaped(table, v)
  {
    hide Kinds, Outcomes, Part, Stops, EndsMissing, IsNonOption, IsOptionWord, Width, WantsNext, OptionText;
    OptionSplits(table, true, v);
    StopsStep(table, v);
    MissingAtEnd(table, v);
    NothingStops(table);
  }

  lemma {:induction false} PartShapes(table: seq<LongOption>, v: seq<Arg>)
    requires AllWords(v)
    ensures WellShaped(table, v)
    decreases |v|
  {
    hide *;
    if v == [] {
      ShapeOfNothing(table);
    } else if IsNonOption(v[0].Text()) {
      WordsBehind(v, 1);
      PartShapes(table, v[1..]);
      ShapeBehindNonOption(table, v);
    } else if v[0].Text() == "--" {
      ShapeAtTerminator(table, v);
    } else {
      OptionWordOf(v[0]);
      WordsBehind(v, Width(table, v));
      PartShapes(table, v[Width(table, v)..]);
      ShapeBehindOption(table, v);
    }
  }

  /** A block of non-options is read as non-options. */
  lemma {:induction false} ReadNonOptions(table: seq<LongOption>, v: seq<Arg>)
    requires forall i :: 0 <= i < |v| ==> IsNonOption(v[i].Text())
    ensures Kinds(table, true, v) == seq(|v|, _ => NonOption) && Outcomes(table, true, v) == []
  {
    hide IsNonOption, WantsNext, OptionText, Interpret;
    if v != [] {
      ReadNonOptions(table, v[1..]);
    }
  }

  /** Followed by some word, a trailing option that wants an argument takes that word. */
  ghost predicate TakesNext(table: seq<LongOption>, v: seq<Arg>, t: seq<Arg>) {
    var os, k := Outcomes(table, true, Part(table, true, v, Option) + t), |Outcomes(table, true, v)|;
    0 < k <= |os| && !os[k - 1].MissingArgument?
  }

  lemma NothingMissing(table: seq<LongOption>, v: seq<Arg>)
    ensures v == [] || v[0].Text() == "--" ==> !EndsMissing(table, v)
  {
    hide WantsNext, OptionText, Interpret;
  }

  lemma TakesNextSkipping(table: seq<LongOption>, v: seq<Arg>, t: seq<Arg>)
    requires v != [] && IsNonOption(v[0].Text()) && TakesNext(table, v[1..], t)
    ensures TakesNext(table, v, t)
  {
    hide Kinds, Outcomes, Part, IsNonOption;
    NonOptionSplits(table, v);
  }

  lemma TakesNextBehind(table: seq<LongOption>, v: seq<Arg>, t: seq<Arg>)
    requires |v| > 1 && IsOptionWord(v[0]) && AllWords(v) && TakesNext(table, v[Width(table, v)..], t)
    ensures TakesNext(table, v, t)
  {
    hide WantsNext, OptionText, IsNonOption, IsOptionWord, Kinds, Outcomes, Part, Width;
    FirstOption(table, v, t);
    SameOption(table, v, Part(table, true, v, Option) + t);
    SameOption(table, v, v);
  }

  lemma LastTakesNext(table: seq<LongOption>, v: seq<Arg>, t: seq<Arg>)
    requires |v| == 1 && IsOptionWord(v[0]) && AllWords(v) && AllWords(t) && t != []
    requires WantsNext(table, OptionText(v[0].Text()))
    ensures TakesNext(table, v, t)
  {
    hide WantsNext, OptionText, IsOptionWord, IsNonOption, Kinds, Outcomes, Part, Interpret;
    FirstOption(table, v, t);
    MissingAtEnd(table, v);
    EmptyScan(table);
    assert Part(table, true, v, Option) + t == v + t;
    assert (v + t)[0] == v[0] && (v + t)[1] == t[0];
    ReadOption(table, true, v);
    ReadOption(table, true, v + t);
    NextIrrelevant(table, OptionText(v[0].Text()), t[0], t[0]);
  }

  lemma {:induction false} DanglingTakesNext(table: seq<LongOption>, v: seq<Arg>, t: seq<Arg>)
    requires AllWords(v) && AllWords(t) && EndsMissing(table, v) && t != []
    ensures TakesNext(table, v, t)
    decreases |v|
  {
    hide *;
    NothingMissing(table, v);
    if v == [] || v[0].Text() == "--" {
      assert false;
    } else if IsNonOption(v[0].Text()) {
      WordsBehind(v, 1);
      SkipsOne(table, v);
      DanglingTakesNext(table, v[1..], t);
      TakesNextSkipping(table, v, t);
    } else {
      OptionWordOf(v[0]);
      WordsBehind(v, Width(table, v));
      MissingAtEnd(table, v);
      NothingMissing(table, v[Width(table, v)..]);
      if EndsMissing(table, v[Width(table, v)..]) {
        DanglingTakesNext(table, v[Width(table, v)..], t);
        TakesNextBehind(table, v, t);
      } else {
        LastTakesNext(table, v, t);
      }
    }
  }

  lemma PartsAreWords(table: seq<LongOption>, v: seq<Arg>)
    requires AllWords(v)
    ensures AllWords(Part(table, true, v, NonOption))
  {
    hide Kinds, Pick;
    PickFromWords(v, Kinds(table, true, v), NonOption);
  }

  lemma TakingIsDifferent(table: seq<LongOption>, v: seq<Arg>, t: seq<Arg>)
    requires EndsMissing(table, v) && TakesNext(table, v, t)
    ensures Outcomes(table, true, Part(table, true, v, Option) + t) != Outcomes(table, true, v)
  {
    hide Outcomes, Part;
  }

  /** A vector read as options, non-options, rest, in that order, is its own partition. */
  lemma PartsOfReading(table: seq<LongOption>, f: seq<Arg>, a: seq<Arg>, b: seq<Arg>, c: seq<Arg>)
    requires f == a + (b + c)
    requires Kinds(table, true, f)
          == seq(|a|, _ => Option) + (seq(|b|, _ => NonOption) + seq(|c|, _ => Rest))
    ensures Partitioned(table, true, f) == f
  {
    hide Kinds, Pick;
    forall k ensures Part(table, true, f, k)
                  == (if k == Option then a else []) + ((if k == NonOption then b else []) + if k == Rest then c else [])
    {
      PickAppend(a, seq(|a|, _ => Option), b + c, seq(|b|, _ => NonOption) + seq(|c|, _ => Rest), k);
      PickAppend(b, seq(|b|, _ => NonOption), c, seq(|c|, _ => Rest), k);
      PickUniform(a, Option, k);
      PickUniform(b, NonOption, k);
      PickUniform(c, Rest, k);
    }
    Empty(a);
    Empty(b);
    Empty(c);
    Assoc(a, b, c);
  }

  lemma PartsWhenStopped(table: seq<LongOption>, v: seq<Arg>, t: seq<Arg>)
    requires ReadsAsTyped(table, v, t) && Stops(table, v)
    ensures var f := Part(table, true, v, Option) + t;
            Outcomes(table, true, f) == Outcomes(table, true, v) && Partitioned(table, true, f) == f
  {
    hide Kinds, Outcomes, Part, Stops, Partitioned;
    var options := Part(table, true, v, Option);
    assert options + t == options + ([] + t);
    assert seq(0, _ => NonOption) + seq(|t|, _ => Rest) == seq(|t|, _ => Rest);
    Empty(Outcomes(table, true, v));
    PartsOfReading(table, options + t, options, [], t);
  }

  lemma PartsWhenDone(table: seq<LongOption>, v: seq<Arg>, t: seq<Arg>)
    requires ReadsAsTyped(table, v, t) && !Stops(table, v)
    requires forall i :: 0 <= i < |t| ==> IsNonOption(t[i].Text())
    ensures var f := Part(table, true, v, Option) + t;
            Outcomes(table, true, f) == Outcomes(table, true, v) && Partitioned(table, true, f) == f
  {
    hide Kinds, Outcomes, Part, Stops, Partitioned, IsNonOption;
    var options := Part(table, true, v, Option);
    ReadNonOptions(table, t);
    assert options + t == options + (t + []);
    assert seq(|t|, _ => NonOption) + seq(0, _ => Rest) == seq(|t|, _ => NonOption);
    Empty(Outcomes(table, true, v));
    PartsOfReading(table, options + t, options, t, []);
  }

  /** A second scan reports the same options exactly when the typed vector was not dangling, and then it
      moves nothing. */
  lemma RescanReportsTheSame(table: seq<LongOption>, v: seq<Arg>)
    requires AllWords(v)
    ensures Outcomes(table, true, Partitioned(table, true, v)) == Outcomes(table, true, v)
            <==> !Dangling(table, v)
    ensures !Dangling(table, v) ==>
              Partitioned(table, true, Partitioned(table, true, v)) == Partitioned(table, true, v)
  {
    hide Kinds, Outcomes, Part, Stops, EndsMissing, TakesNext, ReadsAsTyped, AllWords, IsNonOption;
    var options, skipped, rest :=
      Part(table, true, v, Option), Part(table, true, v, NonOption), Part(table, true, v, Rest);
    Assoc(options, skipped, rest);
    Empty(skipped);
    PartShapes(table, v);
    if Dangling(table, v) {
      PartsAreWords(table, v);
      DanglingTakesNext(table, v, skipped);
      TakingIsDifferent(table, v, skipped);
    } else {
      RescanOptions(table, v, skipped + rest);
      if Stops(table, v) {
        PartsWhenStopped(table, v, skipped + rest);
      } else {
        PartsWhenDone(table, v, skipped);
      }
    }
  }

  lemma ShortForPort(table: seq<LongOption>)
    requires table == [LongOption("port", RequiredArgument, 0, 112)]
    ensures !IsNonOption("--p") && OptionText("--p") == "p" && IsNonOption("f")
    ensures WantsNext(table, "p")
    ensures Interpret(table, "p", Null) == MissingArgument(0)
    ensures Interpret(table, "p", Word("f")) == Accepted(0, Word("f"))
  {
    assert EqualsAt("p") == 1 && NameOf("p") == "p";
    assert FirstExact(table, "p") == 1;
    assert FirstAbbreviated(table, "p") == 0;
  }

  /** The failing family is not empty: a lone `--p`, short for `--port`, behind a file name. */
  lemma DanglingExample() returns (table: seq<LongOption>, v: seq<Arg>)
    ensures AllWords(v) && Dangling(table, v)
    ensures Outcomes(table, true, v) == [MissingArgument(0)]
    ensures Outcomes(table, true, Partitioned(table, true, v)) == [Accepted(0, Word("f"))]
  {
    hide WantsNext, MatchOf, Interpret, IsNonOption, OptionText, Kinds, Outcomes, Stops, Part;
    table := [LongOption("port", RequiredArgument, 0, 112)];
    var file, port := Word("f"), Word("--p");
    v := [file, port];
    ShortForPort(table);
    EmptyScan(table);
    NonOptionSplits(table, v);
    assert v[1..] == [port] && [port][1..] == [];
    ReadOption(table, true, [port]);
    OptionSplits(table, true, [port]);
    var w := [port, file];
    assert Partitioned(table, true, v) == w;
    ReadOption(table, true, w);
    assert w[2..] == [];
  }
}
