/** The sentences of one (document, method) unit: a title sentence, a method
    sentence, then for each step a directions sentence followed by the step's
    body split into sentences, each ending in the delimiter " . ". */
module Rendering {
  import opened Strings
  import opened Grouping

  /** The structural markers `section_ids` registered with the tokenizer. */
  const TitleMarker: string := "[ TITLE ]"
  const MethodMarker: string := "[ METHOD ]"
  const StepMarker: string := "[ STEP ]"

  /** The sentence delimiter `cl_eos_str`. */
  const Eos: string := " . "

  /** The body text is split on a period followed by two spaces. */
  const SplitPattern: string := ".  "

  /** A body sentence whose fragment ended in a period ends with this. */
  const DoubledEos: string := ". . "

  function TitleSentence(title: string): string {
    TitleMarker + " " + title + Eos
  }

  function MethodSentence(name: string): string {
    MethodMarker + " " + name + Eos
  }

  /** The directions sentence of the `stepNum`-th step of a group (counted from 0
      within the group): its summary without the last character. */
  function Directions(stepNum: nat, summary: string): string {
    StepMarker + " " + NatToString(stepNum) + " " + DropLast(summary) + Eos
  }

  /** Each fragment of the body followed by the delimiter; when the last sentence
      ends with a doubled delimiter, each ". . " found in one left-to-right pass
      over it becomes " . " (the result may still hold a ". . "). */
  function BodySentences(text: string): (r: seq<string>)
    ensures |r| == |Split(text, SplitPattern)| >= 1
  {
    CollapseLast(Delimited(Split(text, SplitPattern)))
  }

  /** The fix-up of the last body sentence. */
  function CollapseLast(sentences: seq<string>): (r: seq<string>)
    requires |sentences| > 0
    ensures |r| == |sentences|
  {
    var last := sentences[|sentences| - 1];
    if EndsWith(last, DoubledEos) then
      sentences[..|sentences| - 1] + [ReplaceAll(last, DoubledEos, Eos)]
    else
      sentences
  }

  /** `[_ + " . " for _ in fragments]` */
  function Delimited(fragments: seq<string>): (r: seq<string>)
    ensures |r| == |fragments|
  {
    seq(|fragments|, i requires 0 <= i < |fragments| => fragments[i] + Eos)
  }

  /** The sentences of the steps of one group, in step order. */
  function StepsSentences(steps: seq<Step>): seq<string> {
    if steps == [] then []
    else
      var n := |steps| - 1;
      StepsSentences(steps[..n]) + [Directions(n, steps[n].summary)] + BodySentences(steps[n].text)
  }

  /** `all_sentences` of the unit made of document title `title` and group `g`. */
  function RenderUnit(title: string, g: Group): seq<string> {
    [TitleSentence(title), MethodSentence(g.name)] + StepsSentences(g.steps)
  }

  /** A sentence survives unless it is empty or the bare delimiter. */
  predicate Keep(s: string) {
    s != "" && s != Eos
  }

  /** The sentences that get a record, in order. */
  function Kept(sentences: seq<string>): (r: seq<string>)
    ensures |r| <= |sentences|
    ensures forall i :: 0 <= i < |r| ==> Keep(r[i])
  {
    if sentences == [] then []
    else
      var last := sentences[|sentences| - 1];
      Kept(sentences[..|sentences| - 1]) + (if Keep(last) then [last] else [])
  }

  lemma {:induction false} KeptAppend(a: seq<string>, b: seq<string>)
    ensures Kept(a + b) == Kept(a) + Kept(b)
    decreases |b|
  {
    if b != [] {
      var b', x := b[..|b| - 1], b[|b| - 1];
      KeptAppend(a, b');
      var ab := a + b;
      assert ab[..|ab| - 1] == a + b';
      assert ab[|ab| - 1] == x;
      calc {
        Kept(ab);
        Kept(a + b') + (if Keep(x) then [x] else []);
        Kept(a) + Kept(b') + (if Keep(x) then [x] else []);
        Kept(a) + (Kept(b') + (if Keep(x) then [x] else []));
        Kept(a) + Kept(b);
      }
    } else {
      assert a + b == a;
    }
  }

  /** Every kept sentence is one of the sentences it was kept from. */
  lemma {:induction false} KeptFrom(sentences: seq<string>, i: nat)
    requires i < |Kept(sentences)|
    ensures Kept(sentences)[i] in sentences
  {
    var prefix := sentences[..|sentences| - 1];
    if i < |Kept(prefix)| {
      KeptFrom(prefix, i);
    }
  }

  /** A sequence of sentences none of which is dropped is kept whole. */
  lemma {:induction false} KeptAll(sentences: seq<string>)
    requires forall i :: 0 <= i < |sentences| ==> Keep(sentences[i])
    ensures Kept(sentences) == sentences
  {
    if sentences != [] {
      KeptAll(sentences[..|sentences| - 1]);
    }
  }

  predicate IsTitleSentence(s: string) {
    StartsWith(s, TitleMarker + " ")
  }

  predicate IsMethodSentence(s: string) {
    StartsWith(s, MethodMarker + " ")
  }

  /** The directions sentence of the first step of a group. */
  predicate IsFirstDirections(s: string) {
    StartsWith(s, StepMarker + " 0 ")
  }

  lemma StartsWithAppend(a: string, b: string)
    ensures StartsWith(a + b, a)
  {
    assert (a + b)[..|a|] == a;
  }

  lemma EndsWithAppend(a: string, b: string)
    ensures EndsWith(a + b, b)
  {
    assert (a + b)[|a|..] == b;
  }

  /** The first sentence of a non-empty group's steps is the directions of step 0. */
  lemma {:induction false} StepsSentencesHead(steps: seq<Step>)
    requires |steps| > 0
    ensures |StepsSentences(steps)| > 0
    ensures StepsSentences(steps)[0] == Directions(0, steps[0].summary)
  {
    var n := |steps| - 1;
    if n > 0 {
      StepsSentencesHead(steps[..n]);
    }
  }

  lemma TitleSentenceShape(title: string)
    ensures IsTitleSentence(TitleSentence(title)) && Keep(TitleSentence(title))
  {
    assert TitleSentence(title) == (TitleMarker + " ") + (title + Eos);
    StartsWithAppend(TitleMarker + " ", title + Eos);
  }

  lemma MethodSentenceShape(name: string)
    ensures IsMethodSentence(MethodSentence(name)) && Keep(MethodSentence(name))
  {
    assert MethodSentence(name) == (MethodMarker + " ") + (name + Eos);
    StartsWithAppend(MethodMarker + " ", name + Eos);
  }

  lemma FirstDirectionsShape(summary: string)
    ensures IsFirstDirections(Directions(0, summary)) && Keep(Directions(0, summary))
  {
    assert NatToString(0) == "0";
    var rest := DropLast(summary) + Eos;
    assert Directions(0, summary) == (StepMarker + " 0 ") + rest;
    StartsWithAppend(StepMarker + " 0 ", rest);
  }

  /** Every unit of a non-empty group keeps at least three sentences, and they
      start with the title, the method and the first step's directions. */
  lemma KeptUnitHead(title: string, g: Group)
    requires |g.steps| > 0
    ensures var kept := Kept(RenderUnit(title, g));
      |kept| >= 3 &&
      kept[0] == TitleSentence(title) && IsTitleSentence(kept[0]) &&
      kept[1] == MethodSentence(g.name) && IsMethodSentence(kept[1]) &&
      kept[2] == Directions(0, g.steps[0].summary) && IsFirstDirections(kept[2])
  {
    var steps := StepsSentences(g.steps);
    StepsSentencesHead(g.steps);
    TitleSentenceShape(title);
    MethodSentenceShape(g.name);
    FirstDirectionsShape(g.steps[0].summary);
    KeptThreeFirst(TitleSentence(title), MethodSentence(g.name), steps);
  }

  lemma KeptCons(x: string, rest: seq<string>)
    requires Keep(x)
    ensures Kept([x] + rest) == [x] + Kept(rest)
  {
    KeptAll([x]);
    KeptAppend([x], rest);
  }

  lemma KeptThreeFirst(a: string, b: string, rest: seq<string>)
    requires Keep(a) && Keep(b) && |rest| > 0 && Keep(rest[0])
    ensures var k := Kept([a, b] + rest); |k| >= 3 && k[0] == a && k[1] == b && k[2] == rest[0]
  {
    var c, tail := rest[0], rest[1..];
    assert [a, b] + rest == [a] + ([b] + ([c] + tail));
    KeptCons(c, tail);
    KeptCons(b, [c] + tail);
    KeptCons(a, [b] + ([c] + tail));
  }

  /** The collapse of a doubled delimiter happens exactly when the last body
      fragment itself ends with a period. */
  lemma DoubledIffPeriod(fragment: string)
    ensures EndsWith(fragment + Eos, DoubledEos) <==> |fragment| > 0 && fragment[|fragment| - 1] == '.'
  {
    var s := fragment + Eos;
    assert |Eos| == 3 && |DoubledEos| == 4;
    assert DoubledEos == ['.'] + Eos;
    if |fragment| > 0 {
      assert s[|s| - 4..] == [fragment[|fragment| - 1]] + Eos;
      assert s[|s| - 4] == fragment[|fragment| - 1];
    }
  }

  /** The fragments back from a list of rendered sentences, each without its delimiter. */
  function StripEos(sentences: seq<string>): (r: seq<string>)
    requires forall i :: 0 <= i < |sentences| ==> EndsWith(sentences[i], Eos)
    ensures |r| == |sentences|
  {
    seq(|sentences|, i requires 0 <= i < |sentences| && EndsWith(sentences[i], Eos) =>
      sentences[i][..|sentences[i]| - |Eos|])
  }

  /** Delimiting then stripping gives the fragments back. */
  lemma StripDelimited(fragments: seq<string>)
    ensures forall i :: 0 <= i < |fragments| ==> EndsWith(Delimited(fragments)[i], Eos)
    ensures StripEos(Delimited(fragments)) == fragments
  {
    var d := Delimited(fragments);
    forall i | 0 <= i < |fragments|
      ensures EndsWith(d[i], Eos) && d[i][..|d[i]| - |Eos|] == fragments[i]
    {
      EndsWithAppend(fragments[i], Eos);
    }
  }

  /** Rendering fragments and fixing up the last one leaves them alone unless the
      last fragment ends with a period. */
  lemma NoCollapse(fragments: seq<string>)
    requires |fragments| > 0 && !EndsWith(fragments[|fragments| - 1], ".")
    ensures CollapseLast(Delimited(fragments)) == Delimited(fragments)
  {
    var last := fragments[|fragments| - 1];
    DoubledIffPeriod(last);
    if |last| > 0 {
      assert last[|last| - 1..] == [last[|last| - 1]];
    }
    assert Delimited(fragments)[|fragments| - 1] == last + Eos;
  }

  lemma EndsWithPrepend(a: string, r: string, suffix: string)
    requires EndsWith(r, suffix)
    ensures EndsWith(a + r, suffix)
  {
    assert (a + r)[|a + r| - |suffix|..] == r[|r| - |suffix|..];
  }

  /** A string that both starts and ends with ". . " and is shorter than two of
      them is ". . . ", so rewriting its first ". . " leaves " . . ". */
  lemma ShortDoubled(s: string)
    requires |s| < 8 && StartsWith(s, DoubledEos) && EndsWith(s, DoubledEos)
    ensures EndsWith(Eos + s[4..], Eos)
  {
    assert s[1] == ' ' && s[3] == ' ' && s[|s| - 4] == '.';
    var t := s[4..];
    if |t| == 2 {
      assert t == s[|s| - 2..] == ". ";
      assert (Eos + t)[2..] == Eos;
    }
  }

  /** One pass of `replace(". . ", " . ")` over a string ending in ". . " leaves it
      ending in " . ": either that last ". . " is rewritten, or a match two
      characters earlier overlaps it and leaves ". " behind the inserted " . ". */
  lemma {:induction false} ReplaceKeepsEos(s: string)
    requires EndsWith(s, DoubledEos)
    ensures EndsWith(ReplaceAll(s, DoubledEos, Eos), Eos)
    decreases |s|
  {
    if s[..4] == DoubledEos {
      var t := s[4..];
      var rt := ReplaceAll(t, DoubledEos, Eos);
      assert ReplaceAll(s, DoubledEos, Eos) == Eos + rt;
      if |t| >= 4 {
        assert EndsWith(t, DoubledEos) by {
          assert t[|t| - 4..] == s[|s| - 4..];
        }
        ReplaceKeepsEos(t);
        EndsWithPrepend(Eos, rt, Eos);
      } else {
        assert rt == t;
        ShortDoubled(s);
      }
    } else {
      assert |s| > 4 by {
        assert s[..4] != s[|s| - 4..];
      }
      var t := s[1..];
      assert EndsWith(t, DoubledEos) by {
        assert t[|t| - 4..] == s[|s| - 4..];
      }
      ReplaceKeepsEos(t);
      EndsWithPrepend([s[0]], ReplaceAll(t, DoubledEos, Eos), Eos);
    }
  }

  /** The fix-up keeps every sentence ending with the delimiter. */
  lemma CollapsedDelimited(fragments: seq<string>)
    requires |fragments| > 0 && EndsWith(fragments[|fragments| - 1], ".")
    ensures forall i :: 0 <= i < |fragments| ==> EndsWith(CollapseLast(Delimited(fragments))[i], Eos)
  {
    var n := |fragments|;
    var last := fragments[n - 1];
    var d := Delimited(fragments);
    var r := ReplaceAll(last + Eos, DoubledEos, Eos);
    assert EndsWith(r, Eos) by {
      assert last[|last| - 1..] == ".";
      DoubledIffPeriod(last);
      ReplaceKeepsEos(last + Eos);
    }
    var body := CollapseLast(d);
    assert body == d[..n - 1] + [r] by {
      Collapses(fragments);
    }
    forall i | 0 <= i < n
      ensures EndsWith(body[i], Eos)
    {
      if i < n - 1 {
        assert body[i] == fragments[i] + Eos;
        EndsWithAppend(fragments[i], Eos);
      } else {
        assert body[i] == r;
      }
    }
  }

  /** Every body sentence ends with the delimiter, the fixed-up last one included. */
  lemma BodyDelimited(text: string)
    ensures forall i :: 0 <= i < |BodySentences(text)| ==> EndsWith(BodySentences(text)[i], Eos)
  {
    var fragments := Split(text, SplitPattern);
    if EndsWith(fragments[|fragments| - 1], ".") {
      CollapsedDelimited(fragments);
    } else {
      NoCollapse(fragments);
      StripDelimited(fragments);
    }
  }

  /** Without the fix-up (the last fragment does not end with a period), every
      body sentence ends with the delimiter, and stripping the delimiters and
      joining with the split pattern gives back the body text. */
  lemma BodyRoundTrip(text: string)
    requires var fragments := Split(text, SplitPattern);
      !EndsWith(fragments[|fragments| - 1], ".")
    ensures forall i :: 0 <= i < |BodySentences(text)| ==> EndsWith(BodySentences(text)[i], Eos)
    ensures Join(StripEos(BodySentences(text)), SplitPattern) == text
  {
    var fragments := Split(text, SplitPattern);
    assert BodySentences(text) == Delimited(fragments) by {
      NoCollapse(fragments);
    }
    StripDelimited(fragments);
    JoinSplit(text, SplitPattern);
  }

  /** Every sentence of a group's steps ends with the delimiter. */
  lemma {:induction false} StepsSentencesDelimited(steps: seq<Step>)
    ensures forall i :: 0 <= i < |StepsSentences(steps)| ==> EndsWith(StepsSentences(steps)[i], Eos)
  {
    if steps != [] {
      var n := |steps| - 1;
      var a := StepsSentences(steps[..n]);
      var d := Directions(n, steps[n].summary);
      var b := BodySentences(steps[n].text);
      StepsSentencesDelimited(steps[..n]);
      EndsWithAppend(StepMarker + " " + NatToString(n) + " " + DropLast(steps[n].summary), Eos);
      BodyDelimited(steps[n].text);
      var all := a + [d] + b;
      forall i | 0 <= i < |all|
        ensures EndsWith(all[i], Eos)
      {
        if i < |a| {
          assert all[i] == a[i];
        } else if i == |a| {
          assert all[i] == d;
        } else {
          assert all[i] == b[i - |a| - 1];
        }
      }
    }
  }

  /** Every sentence of a rendered unit ends with the delimiter `cl_eos_str`. */
  lemma RenderUnitDelimited(title: string, g: Group)
    ensures forall i :: 0 <= i < |RenderUnit(title, g)| ==> EndsWith(RenderUnit(title, g)[i], Eos)
  {
    var steps := StepsSentences(g.steps);
    StepsSentencesDelimited(g.steps);
    EndsWithAppend(TitleMarker + " " + title, Eos);
    EndsWithAppend(MethodMarker + " " + g.name, Eos);
    var all := RenderUnit(title, g);
    forall i | 2 <= i < |all|
      ensures EndsWith(all[i], Eos)
    {
      assert all[i] == steps[i - 2];
    }
  }

  /** When the collapse does happen, the last sentence is the pieces of the
      rendered last fragment around each ". . ", glued back with " . "; the
      sentences before it are untouched. */
  lemma CollapsedLastSentence(text: string)
    requires var fragments := Split(text, SplitPattern);
      EndsWith(fragments[|fragments| - 1], ".")
    ensures var fragments := Split(text, SplitPattern);
      var body := BodySentences(text);
      body[..|body| - 1] == Delimited(fragments)[..|fragments| - 1] &&
      body[|body| - 1] == Join(Split(fragments[|fragments| - 1] + Eos, DoubledEos), Eos)
  {
    var fragments := Split(text, SplitPattern);
    var last := fragments[|fragments| - 1];
    Collapses(fragments);
    ReplaceIsJoinOfSplit(last + Eos, DoubledEos, Eos);
  }

  lemma Collapses(fragments: seq<string>)
    requires |fragments| > 0 && EndsWith(fragments[|fragments| - 1], ".")
    ensures var n := |fragments|;
      CollapseLast(Delimited(fragments)) ==
        Delimited(fragments)[..n - 1] + [ReplaceAll(fragments[n - 1] + Eos, DoubledEos, Eos)]
  {
    var last := fragments[|fragments| - 1];
    assert last[|last| - 1..] == ".";
    DoubledIffPeriod(last);
    assert Delimited(fragments)[|fragments| - 1] == last + Eos;
  }

  lemma SplitExample()
    ensures Split("a..", SplitPattern) == ["a.."]
  {
    var s := "a..";
    assert s[..|SplitPattern|] != SplitPattern by {
      assert s[0] != SplitPattern[0];
    }
    assert s[1..] == "..";
    assert Split("..", SplitPattern) == [".."];
    assert ['a'] + ".." == s;
  }

  lemma ReplaceExample()
    ensures ReplaceAll("a.. . ", DoubledEos, Eos) == "a. . "
  {
    assert ReplaceAll(". . ", DoubledEos, Eos) == " . ";
    assert ". . "[1..] == " . ";
    assert ReplaceAll(".. . ", DoubledEos, Eos) == ". . ";
  }

  /** One pass of `replace` need not remove every doubled delimiter: a body whose
      last fragment ends in ".." keeps one. */
  lemma DoubledDelimiterSurvives()
    ensures BodySentences("a..") == ["a. . "]
    ensures EndsWith(BodySentences("a..")[0], DoubledEos)
  {
    SplitExample();
    ReplaceExample();
    var d := Delimited(["a.."]);
    assert d[0] == "a.." + Eos == "a.. . ";
    assert d == ["a.. . "];
    assert EndsWith("a.. . ", DoubledEos);
    assert "a. . "[5 - 4..] == DoubledEos;
  }
}
