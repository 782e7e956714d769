/** Sequences of user events on the editor, and what the key policy
    guarantees across them. */
module EditSession {
  import opened JsText
  import opened LineModel

  /** An event delivered to the line at index `line`: a keydown, a
      text-change (blur, keyup or paste), a change of the font select or the
      size input, or the browser's own editing of the shown text. */
  datatype Event =
    | KeyDown(line: nat, key: Key, caret: nat)
    | TextChange(line: nat)
    | FontChange(line: nat, font: string)
    | SizeChange(line: nat, size: int)
    | NativeEdit(line: nat, shown: string)

  /** One event. Only elements of lines in the store receive events, so an
      event for a line that does not exist changes nothing. */
  function Step(d: Doc, e: Event): (r: Doc)
    requires |d.previews| == |d.lines|
    ensures |r.previews| == |r.lines|
    ensures e.line >= |d.lines| ==> r == d
  {
    if e.line >= |d.lines| then d
    else
      match e
      case KeyDown(i, k, c) => KeyDownDoc(d, i, k, c)
      case TextChange(i) => SyncTextDoc(d, i)
      case FontChange(i, f) => AssignDoc(d, i, FontTo(f))
      case SizeChange(i, n) => AssignDoc(d, i, SizeTo(n))
      case NativeEdit(i, s) => NativeEditDoc(d, i, s)
  }

  /** The events in order, each handled to completion before the next. */
  function Run(d: Doc, es: seq<Event>): (r: Doc)
    requires |d.previews| == |d.lines|
    ensures |r.previews| == |r.lines|
    decreases |es|
  {
    if es == [] then d else Run(Step(d, es[0]), es[1..])
  }

  lemma StepKeepsInv(d: Doc, e: Event)
    requires Inv(d)
    ensures Inv(Step(d, e))
  {
    if e.line < |d.lines| {
      match e
      case KeyDown(i, k, c) =>
        if k == Backspace && |d.lines| > 1 && c == 0 {
          BackspaceKeepsInv(d, i, c);
        } else if k == Enter {
          EnterKeepsInv(d, i, c);
        }
      case TextChange(i) =>
      case FontChange(i, f) =>
      case SizeChange(i, n) =>
      case NativeEdit(i, s) =>
    }
  }

  /** Whatever the user does, the store never becomes empty, every preview
      keeps its line's style, and the caret stays in an existing line. */
  lemma {:induction false} RunKeepsInv(d: Doc, es: seq<Event>)
    requires Inv(d)
    ensures Inv(Run(d, es))
    ensures |Run(d, es).lines| >= 1
    decreases |es|
  {
    if es != [] {
      StepKeepsInv(d, es[0]);
      RunKeepsInv(Step(d, es[0]), es[1..]);
    }
  }

  /** Backspace at the start of the line Enter has just created undoes the
      split, except for the whitespace `trim` took off the text after the
      caret, which becomes one space (or nothing, if only whitespace followed
      the caret). The caret ends up at the end of the rejoined line. */
  lemma EnterThenBackspace(d: Doc, idx: nat, caret: nat)
    requires Synced(d) && idx < |d.lines|
    ensures var (before, after) := SplitAt(d.previews[idx].shown, caret);
      var txt := Joined(before, Trim(after));
      var r := BackspaceDoc(EnterDoc(d, idx, caret), idx + 1, 0);
      r.lines == d.lines[idx := d.lines[idx].(txt := txt)] &&
      r.previews == d.previews[idx := d.previews[idx].(shown := txt)] &&
      r.focus == idx && r.caret == AtEnd
  {
    var (before, after) := SplitAt(d.previews[idx].shown, caret);
    var txt := Joined(before, Trim(after));
    var r := BackspaceDoc(EnterDoc(d, idx, caret), idx + 1, 0);
    var want := d.lines[idx := d.lines[idx].(txt := txt)];
    var wantP := d.previews[idx := d.previews[idx].(shown := txt)];
    EnterThenBackspaceAt(d, idx, caret, idx);
    forall j | 0 <= j < |d.lines| ensures r.lines[j] == want[j] && r.previews[j] == wantP[j] {
      EnterThenBackspaceAt(d, idx, caret, j);
    }
    assert r.lines == want && r.previews == wantP;
  }

  /** EnterThenBackspace, one line at a time. */
  lemma EnterThenBackspaceAt(d: Doc, idx: nat, caret: nat, j: nat)
    requires Synced(d) && idx < |d.lines| && j < |d.lines|
    ensures var (before, after) := SplitAt(d.previews[idx].shown, caret);
      var txt := Joined(before, Trim(after));
      var r := BackspaceDoc(EnterDoc(d, idx, caret), idx + 1, 0);
      |r.lines| == |d.lines| && |r.previews| == |d.lines| && r.focus == idx && r.caret == AtEnd &&
      r.lines[j] == (if j == idx then d.lines[idx].(txt := txt) else d.lines[j]) &&
      r.previews[j] == (if j == idx then d.previews[idx].(shown := txt) else d.previews[j])
  {
    var e := EnterDoc(d, idx, caret);
    var r := BackspaceDoc(e, idx + 1, 0);
    if j < idx {
      assert r.lines[j] == e.lines[j] && r.previews[j] == e.previews[j];
    } else if j > idx {
      assert r.lines[j] == e.lines[j + 1] && r.previews[j] == e.previews[j + 1];
    }
  }

  /** The lines after a merge: the target's text joined with the removed
      line's shown text, and the removed line dropped. */
  lemma MergedLines(d: Doc, idx: nat)
    requires Synced(d) && idx < |d.lines| && |d.lines| > 1
    ensures var t := MergeTarget(idx);
      BackspaceDoc(d, idx, 0).lines ==
        SpliceOut(d.lines[t := d.lines[t].(txt := Joined(d.lines[t].txt, d.previews[idx].shown))], idx)
  {
    var t := MergeTarget(idx);
    var shown := d.previews[idx].shown;
    var after := SplitAt(shown, 0).1;
    assert after == shown;
    var m := MergeText(d, t, after);
    assert m.lines == d.lines[t := d.lines[t].(txt := Joined(d.lines[t].txt, shown))];
  }

  // ----- Worked examples -----

  /** A line in the default font and size. */
  function Plain(t: string): (l: Line)
    ensures l == WithDefaults(Props(Some(t), None, None))
  {
    Line(t, FONTS[0], DEFAULT_SIZE)
  }

  /** The previews freshly created for `ls`. */
  function Previews(ls: seq<Line>): (ps: seq<Preview>)
    ensures |ps| == |ls| && forall i :: 0 <= i < |ls| ==> ps[i] == Render(ls[i])
  {
    if ls == [] then [] else [Render(ls[0])] + Previews(ls[1..])
  }

  /** A store holding `ls`, each shown as stored, with the caret at the start of the first. */
  function Store(ls: seq<Line>): (d: Doc)
    ensures Inv(d) <==> |ls| >= 1
  {
    Doc(ls, Previews(ls), 0, AtStart)
  }

  /** Enter after "hello" in "hello world": "hello" stays, "world" (trimmed)
      becomes a new line below in the same font and size. */
  lemma SplitHelloWorld()
    ensures EnterDoc(Store([Line("hello world", FONTS[1], 40)]), 0, 5).lines ==
            [Line("hello", FONTS[1], 40), Line("world", FONTS[1], 40)]
  {
    var d := Store([Line("hello world", FONTS[1], 40)]);
    var r := EnterDoc(d, 0, 5);
    assert d.previews[0].shown == "hello world";
    SplitHelloWorldText();
    assert r.lines[0] == Line("hello", FONTS[1], 40);
    assert r.lines[1] == Line("world", FONTS[1], 40);
  }

  lemma SplitHelloWorldText()
    ensures SplitAt("hello world", 5) == ("hello", " world")
    ensures Trim(" world") == "world"
  {
    var s := "hello world";
    assert s[..5] == "hello" && s[5..] == " world";
    assert " world" == " " + "world" + "";
    assert AllWhitespace(" ") && AllWhitespace("");
    VisibleAscii('w');
    VisibleAscii('d');
    TrimSurrounded(" ", "world", "");
  }

  /** Backspace at the start of the first of ["abc", "def"] merges it
      forward into the second, whose text comes first: "def abc". */
  lemma MergeFirstForward()
    ensures BackspaceDoc(Store([Plain("abc"), Plain("def")]), 0, 0).lines == [Plain("def abc")]
  {
    var d := Store([Plain("abc"), Plain("def")]);
    MergedLines(d, 0);
    assert d.previews[0].shown == "abc";
    assert Joined("def", "abc") == "def abc";
  }

  /** Backspace at the start of "ghi" in ["abc", "def", "ghi"] merges it into
      the line above: ["abc", "def ghi"]. */
  lemma MergeLastBackward()
    ensures BackspaceDoc(Store([Plain("abc"), Plain("def"), Plain("ghi")]), 2, 0).lines ==
            [Plain("abc"), Plain("def ghi")]
  {
    var d := Store([Plain("abc"), Plain("def"), Plain("ghi")]);
    MergedLines(d, 2);
    assert d.previews[2].shown == "ghi";
    assert Joined("def", "ghi") == "def ghi";
  }

  /** With a single line, Backspace is refused: nothing changes, whatever the caret. */
  lemma LastLineStays(l: Line, caret: nat)
    ensures BackspaceDoc(Store([l]), 0, caret) == Store([l])
  {
  }
}
