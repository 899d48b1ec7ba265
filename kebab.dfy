/**
 * `_.kebabCase` on ASCII names: the name is cut into words, each word is
 * lower-cased and the words are joined with `-`.
 *
 * Words are maximal runs of letters and digits; every other character separates
 * words. Inside a run a new word starts at a lower-to-upper step (`myController`),
 * at a letter-to-digit or digit-to-letter step (`controller2`), and before the
 * last capital of a block of capitals that a lower-case letter follows (`XMLHttp`).
 */
module Kebab {
  import opened Text

  predicate IsLetter(c: char) { IsUpper(c) || IsLower(c) }
  predicate IsAlnum(c: char) { IsLetter(c) || IsDigit(c) }

  /** A new word starts at `s[i]` although `s[i - 1]` and `s[i]` are both letters or digits. */
  predicate BreakBefore(s: string, i: nat)
    requires 0 < i < |s|
  {
    var p, c := s[i - 1], s[i];
    || (IsLower(p) && IsUpper(c))
    || (IsLetter(p) && IsDigit(c))
    || (IsDigit(p) && IsLetter(c))
    || (IsUpper(p) && IsUpper(c) && i + 1 < |s| && IsLower(s[i + 1]))
  }

  /** Where the word that contains `s[i - 1]` ends. */
  function WordEnd(s: string, i: nat): (j: nat)
    requires 0 < i <= |s|
    ensures i <= j <= |s|
    ensures forall k :: i <= k < j ==> IsAlnum(s[k]) && !BreakBefore(s, k)
    ensures j < |s| ==> !IsAlnum(s[j]) || BreakBefore(s, j)
    decreases |s| - i
  {
    if i == |s| || !IsAlnum(s[i]) || BreakBefore(s, i) then i else WordEnd(s, i + 1)
  }

  /** A word as the splitter produces it: all letters or all digits. */
  predicate Word(w: string) {
    && |w| > 0
    && ((forall k :: 0 <= k < |w| ==> IsLetter(w[k])) || (forall k :: 0 <= k < |w| ==> IsDigit(w[k])))
  }

  /** A word of a kebab-case name: all lower-case letters or all digits. */
  predicate Segment(w: string) {
    && |w| > 0
    && ((forall k :: 0 <= k < |w| ==> IsLower(w[k])) || (forall k :: 0 <= k < |w| ==> IsDigit(w[k])))
  }

  /** A word grows by a character of the same class as its last one. */
  lemma ExtendWord(w: string, x: char)
    requires Word(w) && IsAlnum(x) && (IsLetter(w[|w| - 1]) <==> IsLetter(x))
    ensures Word(w + [x])
  {
    var v := w + [x];
    if IsLetter(x) {
      assert forall k :: 0 <= k < |w| ==> IsLetter(w[k]);
      assert forall k :: 0 <= k < |v| ==> IsLetter(v[k]);
    } else {
      assert forall k :: 0 <= k < |w| ==> IsDigit(w[k]);
      assert forall k :: 0 <= k < |v| ==> IsDigit(v[k]);
    }
  }

  /** A run with no break inside it is all letters or all digits. */
  lemma {:induction false} RunIsHomogeneous(s: string, n: nat)
    requires 0 < n <= |s| && IsAlnum(s[0])
    requires forall k :: 1 <= k < n ==> IsAlnum(s[k]) && !BreakBefore(s, k)
    ensures Word(s[..n])
  {
    if n > 1 {
      RunIsHomogeneous(s, n - 1);
      assert IsLetter(s[n - 2]) <==> IsLetter(s[n - 1]) by {
        assert IsAlnum(s[n - 1]) && !BreakBefore(s, n - 1);
      }
      assert s[..n] == s[..n - 1] + [s[n - 1]];
      ExtendWord(s[..n - 1], s[n - 1]);
    } else {
      assert s[..n] == [s[0]];
    }
  }

  /** The words of `s`, left to right. */
  function Words(s: string): (ws: seq<string>)
    ensures forall i :: 0 <= i < |ws| ==> Word(ws[i])
    decreases |s|
  {
    if s == [] then []
    else if !IsAlnum(s[0]) then Words(s[1..])
    else
      var n := WordEnd(s, 1);
      RunIsHomogeneous(s, n);
      [s[..n]] + Words(s[n..])
  }

  function Lowered(ws: seq<string>): (ls: seq<string>)
    ensures |ls| == |ws|
    ensures forall i :: 0 <= i < |ws| ==> ls[i] == ToLower(ws[i])
  {
    seq(|ws|, i requires 0 <= i < |ws| => ToLower(ws[i]))
  }

  /** `_.kebabCase(name)`. */
  function KebabCase(name: string): string {
    Join(Lowered(Words(name)), '-')
  }

  predicate KebabChar(c: char) { IsLower(c) || IsDigit(c) || c == '-' }

  lemma LoweredWordIsSegment(w: string)
    requires Word(w)
    ensures Segment(ToLower(w))
  {
  }

  lemma SegmentLowersToItself(w: string)
    requires Segment(w)
    ensures ToLower(w) == w
  {
  }

  lemma {:induction false} JoinedSegmentChars(ws: seq<string>)
    requires forall i :: 0 <= i < |ws| ==> Segment(ws[i])
    ensures forall k :: 0 <= k < |Join(ws, '-')| ==> KebabChar(Join(ws, '-')[k])
  {
    if |ws| > 1 {
      JoinedSegmentChars(ws[1..]);
      assert Segment(ws[0]);
    } else if |ws| == 1 {
      assert Segment(ws[0]);
    }
  }

  /** A kebab-case name holds only lower-case letters, digits and `-`; in particular no space, `&` or `$`. */
  lemma KebabCaseChars(name: string)
    ensures forall k :: 0 <= k < |KebabCase(name)| ==> KebabChar(KebabCase(name)[k])
    ensures ' ' !in KebabCase(name) && '&' !in KebabCase(name) && '$' !in KebabCase(name)
  {
    var ws := Lowered(Words(name));
    forall i | 0 <= i < |ws| ensures Segment(ws[i]) {
      LoweredWordIsSegment(Words(name)[i]);
    }
    JoinedSegmentChars(ws);
  }

  /** Inside a segment no word starts, and a non-word character right after it ends the word. */
  lemma {:induction false} SegmentWordEnd(t: string, w: string, i: nat)
    requires Segment(w) && |w| <= |t| && t[..|w|] == w
    requires |t| == |w| || !IsAlnum(t[|w|])
    requires 1 <= i <= |w|
    ensures WordEnd(t, i) == |w|
    decreases |w| - i
  {
    if i < |w| {
      assert t[i - 1] == w[i - 1] && t[i] == w[i];
      assert !BreakBefore(t, i);
      SegmentWordEnd(t, w, i + 1);
    }
  }

  /** Segments joined with `-` split back into the same segments. */
  lemma {:induction false} WordsOfJoin(ws: seq<string>)
    requires forall i :: 0 <= i < |ws| ==> Segment(ws[i])
    ensures Words(Join(ws, '-')) == ws
  {
    if |ws| == 1 {
      var w := ws[0];
      SegmentWordEnd(w, w, 1);
      assert w[..|w|] == w && w[|w|..] == [];
    } else if |ws| > 1 {
      var w := ws[0];
      var rest := Join(ws[1..], '-');
      var t := w + ['-'] + rest;
      assert t == Join(ws, '-');
      assert t[..|w|] == w;
      SegmentWordEnd(t, w, 1);
      assert t[|w|..] == ['-'] + rest;
      assert (['-'] + rest)[1..] == rest;
      assert Words(t[|w|..]) == Words(rest);
      WordsOfJoin(ws[1..]);
      assert ws == [w] + ws[1..];
    }
  }

  /** A name already in kebab case is left unchanged. */
  lemma KebabCaseOfSegments(ws: seq<string>)
    requires forall i :: 0 <= i < |ws| ==> Segment(ws[i])
    ensures KebabCase(Join(ws, '-')) == Join(ws, '-')
  {
    WordsOfJoin(ws);
    var ls := Lowered(ws);
    forall i | 0 <= i < |ws| ensures ls[i] == ws[i] {
      SegmentLowersToItself(ws[i]);
    }
    assert ls == ws;
  }

  /** Converting twice is converting once. */
  lemma KebabCaseIdempotent(name: string)
    ensures KebabCase(KebabCase(name)) == KebabCase(name)
  {
    var ws := Lowered(Words(name));
    forall i | 0 <= i < |ws| ensures Segment(ws[i]) {
      LoweredWordIsSegment(Words(name)[i]);
    }
    KebabCaseOfSegments(ws);
  }

  /** The letters and digits of `s`, in order. */
  function Alnums(s: string): string {
    if s == [] then [] else (if IsAlnum(s[0]) then [s[0]] else []) + Alnums(s[1..])
  }

  /** The words run together. */
  function Concat(ws: seq<string>): string {
    if ws == [] then [] else ws[0] + Concat(ws[1..])
  }

  lemma {:induction false} AlnumsAppend(a: string, b: string)
    ensures Alnums(a + b) == Alnums(a) + Alnums(b)
  {
    if a != [] {
      assert (a + b)[1..] == a[1..] + b;
      AlnumsAppend(a[1..], b);
    } else {
      assert a + b == b;
    }
  }

  lemma {:induction false} AlnumsOfRun(w: string)
    requires forall k :: 0 <= k < |w| ==> IsAlnum(w[k])
    ensures Alnums(w) == w
  {
    if w != [] {
      AlnumsOfRun(w[1..]);
      assert w == [w[0]] + w[1..];
    }
  }

  /**
   * The words, run together, are exactly the name's letters and digits in
   * order: the splitter drops the separators and nothing else.
   */
  lemma {:induction false} WordsCoverName(s: string)
    ensures Concat(Words(s)) == Alnums(s)
    decreases |s|
  {
    if s != [] && !IsAlnum(s[0]) {
      WordsCoverName(s[1..]);
    } else if s != [] {
      var n := WordEnd(s, 1);
      var w, rest := s[..n], s[n..];
      WordsCoverName(rest);
      assert forall k :: 0 <= k < |w| ==> IsAlnum(w[k]) by {
        assert forall k :: 1 <= k < n ==> IsAlnum(s[k]);
      }
      AlnumsOfRun(w);
      assert s == w + rest;
      AlnumsAppend(w, rest);
      var ws := Words(s);
      assert ws == [w] + Words(rest);
      assert ws[1..] == Words(rest);
    }
  }

  /** `s` without its hyphens. */
  function Unhyphenated(s: string): string {
    if s == [] then [] else (if s[0] == '-' then [] else [s[0]]) + Unhyphenated(s[1..])
  }

  lemma {:induction false} UnhyphenatedAppend(a: string, b: string)
    ensures Unhyphenated(a + b) == Unhyphenated(a) + Unhyphenated(b)
  {
    if a != [] {
      assert (a + b)[1..] == a[1..] + b;
      UnhyphenatedAppend(a[1..], b);
    } else {
      assert a + b == b;
    }
  }

  lemma {:induction false} UnhyphenatedOfSegment(w: string)
    requires forall k :: 0 <= k < |w| ==> w[k] != '-'
    ensures Unhyphenated(w) == w
  {
    if w != [] {
      UnhyphenatedOfSegment(w[1..]);
      assert w == [w[0]] + w[1..];
    }
  }

  /** Removing the hyphens from segments joined with `-` runs the segments together. */
  lemma {:induction false} UnhyphenatedJoin(ws: seq<string>)
    requires forall i :: 0 <= i < |ws| ==> Segment(ws[i])
    ensures Unhyphenated(Join(ws, '-')) == Concat(ws)
  {
    if |ws| == 1 {
      UnhyphenatedOfSegment(ws[0]);
      assert Concat(ws[1..]) == [];
    } else if |ws| > 1 {
      UnhyphenatedJoin(ws[1..]);
      UnhyphenatedOfSegment(ws[0]);
      UnhyphenatedAppend(ws[0] + ['-'], Join(ws[1..], '-'));
      UnhyphenatedAppend(ws[0], ['-']);
      assert Unhyphenated(['-']) == [];
    }
  }

  lemma ToLowerAppend(a: string, b: string)
    ensures ToLower(a + b) == ToLower(a) + ToLower(b)
  {
    assert forall i :: 0 <= i < |a + b| ==> ToLower(a + b)[i] == (ToLower(a) + ToLower(b))[i];
  }

  lemma {:induction false} ConcatLowered(ws: seq<string>)
    ensures Concat(Lowered(ws)) == ToLower(Concat(ws))
  {
    if ws != [] {
      assert Lowered(ws)[1..] == Lowered(ws[1..]);
      ConcatLowered(ws[1..]);
      ToLowerAppend(ws[0], Concat(ws[1..]));
    }
  }

  /**
   * Kebab case keeps every letter and digit of the name, lower-cased and in
   * order, and adds nothing but hyphens.
   */
  lemma KebabCaseKeepsLetters(name: string)
    ensures Unhyphenated(KebabCase(name)) == ToLower(Alnums(name))
  {
    var ws := Words(name);
    var ls := Lowered(ws);
    forall i | 0 <= i < |ls| ensures Segment(ls[i]) {
      LoweredWordIsSegment(ws[i]);
    }
    UnhyphenatedJoin(ls);
    ConcatLowered(ws);
    WordsCoverName(name);
  }

  lemma WordsOfXmlHttp()
    ensures Words("XMLHttp") == ["XML", "Http"]
  {
    var s := "XMLHttp";
    assert !BreakBefore(s, 1) && !BreakBefore(s, 2) && BreakBefore(s, 3);
    WordEndAt(s, 1, 3);
    assert s[..3] == "XML" && s[3..] == "Http";
    var t := "Http";
    WordEndAt(t, 1, 4);
    assert t[..4] == t && t[4..] == [];
    assert Words(t) == ["Http"];
  }

  lemma LoweredXmlHttp()
    ensures Lowered(["XML", "Http"]) == ["xml", "http"]
  {
    assert ToLower("XML") == "xml" && ToLower("Http") == "http";
    var ls := Lowered(["XML", "Http"]);
    assert ls[0] == "xml" && ls[1] == "http";
  }

  /** A block of capitals ends before the capital that starts a lower-case word. */
  lemma KebabOfAcronym()
    ensures KebabCase("XMLHttp") == "xml-http"
  {
    WordsOfXmlHttp();
    LoweredXmlHttp();
    var ws := ["xml", "http"];
    assert Join(ws[1..], '-') == "http";
  }

  /** A word runs on up to the first position that is not a letter or digit or that starts a new word. */
  lemma {:induction false} WordEndAt(s: string, i: nat, j: nat)
    requires 0 < i <= j <= |s|
    requires forall k :: i <= k < j ==> IsAlnum(s[k]) && !BreakBefore(s, k)
    requires j < |s| ==> !IsAlnum(s[j]) || BreakBefore(s, j)
    ensures WordEnd(s, i) == j
    decreases j - i
  {
    if i < j {
      WordEndAt(s, i + 1, j);
    }
  }

  /** `Controller` followed by a digit is two words: the letters, then the digit. */
  lemma WordsOfController(d: char)
    requires IsDigit(d)
    ensures Words("Controller" + [d]) == ["Controller", [d]]
  {
    var s := "Controller" + [d];
    WordEndAt(s, 1, 10);
    assert s[..10] == "Controller" && s[10..] == [d];
    WordEndAt([d], 1, 1);
    assert [d][..1] == [d] && [d][1..] == [];
    assert Words([d]) == [[d]];
    assert Words(s) == [s[..10]] + Words(s[10..]);
  }

  /** `myController` followed by a digit is three words, cut at the capital and before the digit. */
  lemma WordsOfMyController(d: char)
    requires IsDigit(d)
    ensures Words("myController" + [d]) == ["my", "Controller", [d]]
  {
    var s := "myController" + [d];
    WordEndAt(s, 1, 2);
    assert s[..2] == "my" && s[2..] == "Controller" + [d];
    WordsOfController(d);
  }

  lemma LoweredMyController(d: char)
    requires IsDigit(d)
    ensures Lowered(["my", "Controller", [d]]) == ["my", "controller", [d]]
  {
    assert ToLower("my") == "my" && ToLower("Controller") == "controller" && ToLower([d]) == [d];
    var ls := Lowered(["my", "Controller", [d]]);
    assert ls[0] == "my" && ls[1] == "controller" && ls[2] == [d];
  }

  lemma JoinMyController(d: char)
    ensures Join(["my", "controller", [d]], '-') == "my-controller-" + [d]
  {
    var ws := ["my", "controller", [d]];
    assert Join(ws[2..], '-') == [d];
    assert Join(ws[1..], '-') == "controller-" + [d];
  }

  /** `myController<d>` becomes `my-controller-<d>` for every digit `d`. */
  lemma KebabOfCamelDigit(d: char)
    requires IsDigit(d)
    ensures KebabCase("myController" + [d]) == "my-controller-" + [d]
  {
    calc {
      KebabCase("myController" + [d]);
      Join(Lowered(Words("myController" + [d])), '-');
      { WordsOfMyController(d); }
      Join(Lowered(["my", "Controller", [d]]), '-');
      { LoweredMyController(d); }
      Join(["my", "controller", [d]], '-');
      { JoinMyController(d); }
      "my-controller-" + [d];
    }
  }

  /** The kebab-case name `my-controller-<d>` is its own kebab case. */
  lemma KebabOfKebab(d: char)
    requires IsDigit(d)
    ensures KebabCase("my-controller-" + [d]) == "my-controller-" + [d]
  {
    var ws := ["my", "controller", [d]];
    JoinMyController(d);
    assert Segment(ws[0]) && Segment(ws[1]) && Segment(ws[2]);
    KebabCaseOfSegments(ws);
  }

  /** The conversions the repository's route and router tests pin down. */
  lemma KebabOfCamel()
    ensures KebabCase("myController2") == "my-controller-2"
    ensures KebabCase("myController1") == "my-controller-1"
  {
    KebabOfCamelDigit('2');
    assert "myController" + ['2'] == "myController2" && "my-controller-" + ['2'] == "my-controller-2";
    KebabOfCamelDigit('1');
    assert "myController" + ['1'] == "myController1" && "my-controller-" + ['1'] == "my-controller-1";
  }
}
