/** The line store of the message editor as values: the ordered `LINES`
    records, the preview element each one renders into, and where the caret
    was last placed. Every operation of app.js on that state is a function
    here, Doc to Doc; the `Editor` class performs the same steps in place. */
module LineModel {
  import opened JsText

  /** `FONTS` in app.js; the first entry is the default font. */
  const FONTS: seq<string> := ["Helvetica", "Times New Roman"]
  const DEFAULT_SIZE: int := 24

  /** The properties of one line (`line.props`). `size` is kept as given:
      nothing bounds it. */
  datatype Line = Line(txt: string, font: string, size: int)

  /** The argument of `addLine`: each field may be omitted. */
  datatype Props = Props(txt: Option<string>, font: Option<string>, size: Option<int>)

  /** The editable element of one line (`line.preview`): the text it shows
      and its inline `font-family` and `font-size` styles. */
  datatype Preview = Preview(shown: string, fontFamily: string, fontSize: string)

  /** Where `placeCaret` collapses the selection: `placeCaret(el, true)` at
      the start, `placeCaret(el)` at the end. */
  datatype Caret = AtStart | AtEnd

  /** A write through the Proxy `set` trap of a line's props. */
  datatype Assignment = TxtTo(txt: string) | FontTo(font: string) | SizeTo(size: int)

  datatype Key = Backspace | Enter | OtherKey

  /** The editor: `LINES`, the previews in `EDITOR` order, and the line that
      received the caret last and where in it. */
  datatype Doc = Doc(lines: seq<Line>, previews: seq<Preview>, focus: nat, caret: Caret)

  // ----- Invariants -----

  /** The container mirrors `LINES` one to one, and every preview's style is
      the one its line's font and size render to. */
  ghost predicate Synced(d: Doc) {
    |d.previews| == |d.lines| &&
    forall i :: 0 <= i < |d.lines| ==>
      d.previews[i].fontFamily == d.lines[i].font &&
      d.previews[i].fontSize == ComputeSize(d.lines[i].size)
  }

  /** What holds of the editor once the bootstrap line exists: synced, never
      empty, and the caret in a line that exists. */
  ghost predicate Inv(d: Doc) {
    Synced(d) && |d.lines| >= 1 && d.focus < |d.lines|
  }

  // ----- Sequence editing (`Array.prototype.splice`) -----

  /** `s.splice(at, 0, x)` for a non-negative `at`: the position is clamped to
      the length, and everything from it on moves up by one. */
  function SpliceIn<T>(s: seq<T>, at: nat, x: T): (r: seq<T>)
    ensures |r| == |s| + 1
    ensures r[Min(at, |s|)] == x
    ensures forall j :: 0 <= j < Min(at, |s|) ==> r[j] == s[j]
    ensures forall j :: Min(at, |s|) <= j < |s| ==> r[j + 1] == s[j]
  {
    var k := Min(at, |s|);
    s[..k] + [x] + s[k..]
  }

  /** `s.splice(i, 1)`: the element at `i` goes, the ones after it move down. */
  function SpliceOut<T>(s: seq<T>, i: nat): (r: seq<T>)
    requires i < |s|
    ensures |r| == |s| - 1
    ensures forall j :: 0 <= j < i ==> r[j] == s[j]
    ensures forall j :: i < j < |s| ==> r[j - 1] == s[j]
  {
    s[..i] + s[i + 1..]
  }

  // ----- addLine -----

  /** `{ txt: '', size: 24, font: FONTS[0], ...props }`: a supplied field wins,
      an omitted one takes its default. */
  function WithDefaults(p: Props): (l: Line)
    ensures p.txt.Some? ==> l.txt == p.txt.value
    ensures p.font.Some? ==> l.font == p.font.value
    ensures p.size.Some? ==> l.size == p.size.value
    ensures p.txt.None? ==> l.txt == ""
    ensures p.font.None? ==> l.font == FONTS[0]
    ensures p.size.None? ==> l.size == DEFAULT_SIZE
  {
    var base := Line("", FONTS[0], DEFAULT_SIZE);
    var withTxt := match p.txt case Some(t) => base.(txt := t) case None => base;
    var withSize := match p.size case Some(n) => withTxt.(size := n) case None => withTxt;
    match p.font case Some(f) => withSize.(font := f) case None => withSize
  }

  /** The element `create('p', { style: ... }, props.txt)` builds for a new
      line. Its font-size denotes the line's size whenever CSS accepts that
      size (it is not negative). */
  function Render(l: Line): (v: Preview)
    ensures v.shown == l.txt && v.fontFamily == l.font
    ensures PxValue(v.fontSize) == if l.size >= 0 then Some(l.size) else None
  {
    ComputeSizeRoundTrip(l.size);
    Preview(l.txt, l.font, ComputeSize(l.size))
  }

  /** `addLine(props, insertAt)`: the new line goes into `LINES` at
      `insertAt + 1` (clamped by `splice` to the length, so the first line of
      an empty store lands at 0), its preview goes before
      `EDITOR.children[insertAt + 1]` (appended when there is no such child),
      and the caret is placed at its start. Nothing else moves. */
  function AddLineDoc(d: Doc, p: Props, insertAt: nat): (r: Doc)
    requires |d.previews| == |d.lines|
    ensures var k := Min(insertAt + 1, |d.lines|);
      |r.lines| == |d.lines| + 1 && |r.previews| == |r.lines| &&
      r.lines[k] == WithDefaults(p) && r.previews[k] == Render(WithDefaults(p)) &&
      (forall j :: 0 <= j < k ==> r.lines[j] == d.lines[j] && r.previews[j] == d.previews[j]) &&
      (forall j :: k <= j < |d.lines| ==> r.lines[j + 1] == d.lines[j] && r.previews[j + 1] == d.previews[j]) &&
      r.focus == k && r.caret == AtStart
  {
    var line := WithDefaults(p);
    var at := insertAt + 1;
    Doc(SpliceIn(d.lines, at, line), SpliceIn(d.previews, at, Render(line)), Min(at, |d.lines|), AtStart)
  }

  /** Adding a line keeps every preview styled as its line, and establishes
      the store's invariant even on the empty store. */
  lemma AddLineKeepsInv(d: Doc, p: Props, insertAt: nat)
    requires Synced(d)
    ensures Inv(AddLineDoc(d, p, insertAt))
  {
    var r := AddLineDoc(d, p, insertAt);
    var k := Min(insertAt + 1, |d.lines|);
    forall i | 0 <= i < |r.lines|
      ensures r.previews[i].fontFamily == r.lines[i].font &&
              r.previews[i].fontSize == ComputeSize(r.lines[i].size)
    {
      if i > k { assert r.lines[i] == d.lines[i - 1] && r.previews[i] == d.previews[i - 1]; }
    }
  }

  // ----- The Proxy set trap -----

  /** `props[k] = v` on line `idx`: the value is stored exactly as given;
      a font also becomes the preview's font-family and a size its
      font-size (`computeSize`); a txt touches no style. Nothing else changes. */
  function AssignDoc(d: Doc, idx: nat, a: Assignment): (r: Doc)
    requires idx < |d.lines| && |d.previews| == |d.lines|
    ensures |r.lines| == |d.lines| && |r.previews| == |d.previews|
    ensures r.focus == d.focus && r.caret == d.caret
    ensures forall j :: 0 <= j < |d.lines| && j != idx ==>
              r.lines[j] == d.lines[j] && r.previews[j] == d.previews[j]
    ensures r.previews[idx].shown == d.previews[idx].shown
    ensures match a
      case TxtTo(t) => r.lines[idx] == d.lines[idx].(txt := t) && r.previews[idx] == d.previews[idx]
      case FontTo(f) => r.lines[idx] == d.lines[idx].(font := f) &&
                        r.previews[idx] == d.previews[idx].(fontFamily := f)
      case SizeTo(n) => r.lines[idx] == d.lines[idx].(size := n) &&
                        r.previews[idx].fontFamily == d.previews[idx].fontFamily &&
                        r.previews[idx].fontSize == ComputeSize(n) &&
                        PxValue(r.previews[idx].fontSize) == (if n >= 0 then Some(n) else None)
    ensures Synced(d) ==> Synced(r)
    ensures Inv(d) ==> Inv(r)
  {
    var l := d.lines[idx];
    var v := d.previews[idx];
    match a
    case TxtTo(t) => d.(lines := d.lines[idx := l.(txt := t)])
    case FontTo(f) =>
      d.(lines := d.lines[idx := l.(font := f)], previews := d.previews[idx := v.(fontFamily := f)])
    case SizeTo(n) =>
      ComputeSizeRoundTrip(n);
      d.(lines := d.lines[idx := l.(size := n)], previews := d.previews[idx := v.(fontSize := ComputeSize(n))])
  }

  /** `handleTxtChange` on blur, keyup or paste: the line's txt becomes the
      text its preview shows. */
  function SyncTextDoc(d: Doc, idx: nat): (r: Doc)
    requires idx < |d.lines| && |d.previews| == |d.lines|
    ensures |r.lines| == |d.lines| && r.lines[idx].txt == d.previews[idx].shown
    ensures r.previews == d.previews && r.focus == d.focus && r.caret == d.caret
    ensures r.lines[idx].font == d.lines[idx].font && r.lines[idx].size == d.lines[idx].size
    ensures forall j :: 0 <= j < |d.lines| && j != idx ==> r.lines[j] == d.lines[j]
    ensures Inv(d) ==> Inv(r)
  {
    AssignDoc(d, idx, TxtTo(d.previews[idx].shown))
  }

  /** Typing, deleting or pasting inside a preview, which the browser does
      natively: only the shown text changes, and `LINES` is untouched until
      the next text-change event. */
  function NativeEditDoc(d: Doc, idx: nat, shown: string): (r: Doc)
    requires idx < |d.lines| && |d.previews| == |d.lines|
    ensures r.lines == d.lines && r.focus == d.focus && r.caret == d.caret
    ensures |r.previews| == |d.previews| && r.previews[idx].shown == shown
    ensures r.previews[idx].fontFamily == d.previews[idx].fontFamily
    ensures r.previews[idx].fontSize == d.previews[idx].fontSize
    ensures forall j :: 0 <= j < |d.previews| && j != idx ==> r.previews[j] == d.previews[j]
    ensures Inv(d) ==> Inv(r)
  {
    d.(previews := d.previews[idx := d.previews[idx].(shown := shown)])
  }

  // ----- The keydown policy -----

  /** Enter on line `idx` with the caret at `caret`: the shown text is cut at
      the caret; the part before it stays (shown and stored), and a new line
      holding the trimmed part after it, in the same font and size, is
      inserted right below and receives the caret at its start. */
  function EnterDoc(d: Doc, idx: nat, caret: nat): (r: Doc)
    requires idx < |d.lines| && |d.previews| == |d.lines|
    ensures var (before, after) := SplitAt(d.previews[idx].shown, caret);
      var cur := d.lines[idx];
      |r.lines| == |d.lines| + 1 && |r.previews| == |r.lines| &&
      r.lines[idx] == cur.(txt := before) && r.previews[idx] == d.previews[idx].(shown := before) &&
      r.lines[idx + 1] == Line(Trim(after), cur.font, cur.size) &&
      r.previews[idx + 1] == Render(r.lines[idx + 1]) &&
      r.focus == idx + 1 && r.caret == AtStart
    ensures forall j :: 0 <= j < idx ==> r.lines[j] == d.lines[j] && r.previews[j] == d.previews[j]
    ensures forall j :: idx < j < |d.lines| ==> r.lines[j + 1] == d.lines[j] && r.previews[j + 1] == d.previews[j]
  {
    var (before, after) := SplitAt(d.previews[idx].shown, caret);
    var cur := d.lines[idx].(txt := before);
    var split := d.(lines := d.lines[idx := cur], previews := d.previews[idx := d.previews[idx].(shown := before)]);
    AddLineDoc(split, Props(Some(Trim(after)), Some(cur.font), Some(cur.size)), idx)
  }

  /** Enter keeps the store's invariant. */
  lemma EnterKeepsInv(d: Doc, idx: nat, caret: nat)
    requires Synced(d) && idx < |d.lines|
    ensures Inv(EnterDoc(d, idx, caret))
  {
    var (before, after) := SplitAt(d.previews[idx].shown, caret);
    var cur := d.lines[idx].(txt := before);
    var split := d.(lines := d.lines[idx := cur], previews := d.previews[idx := d.previews[idx].(shown := before)]);
    AddLineKeepsInv(split, Props(Some(Trim(after)), Some(cur.font), Some(cur.size)), idx);
  }

  /** The line a Backspace on line `idx` merges into: the one above, or line 1
      when `idx` is the first line. */
  function MergeTarget(idx: nat): (t: nat)
    ensures t != idx && (idx > 0 ==> t == idx - 1) && (idx == 0 ==> t == 1)
  {
    if idx > 0 then idx - 1 else 1
  }

  /** The target's text after the merge: the removed text is appended after
      a single space, unless it is empty. */
  function Joined(target: string, removed: string): string {
    if removed != [] then target + " " + removed else target
  }

  /** Backspace on line `idx` with the caret at `caret`. With the caret at
      offset 0 and more than one line: the whole shown text of line `idx`
      (what follows the caret) is appended to the target line, line `idx` is
      removed from `LINES` and from the container, and the caret goes to the
      end of the target. Otherwise nothing changes. */
  function BackspaceDoc(d: Doc, idx: nat, caret: nat): (r: Doc)
    requires idx < |d.lines| && |d.previews| == |d.lines|
    ensures !(|d.lines| > 1 && caret == 0) ==> r == d
    ensures |d.lines| > 1 && caret == 0 ==>
      var t := MergeTarget(idx);
      var nt := if t < idx then t else t - 1;
      var txt := Joined(d.lines[t].txt, d.previews[idx].shown);
      |r.lines| == |d.lines| - 1 && |r.previews| == |r.lines| &&
      r.lines[nt] == d.lines[t].(txt := txt) &&
      r.previews[nt] == (if d.previews[idx].shown != [] then d.previews[t].(shown := txt) else d.previews[t]) &&
      (forall j :: 0 <= j < idx && j != t ==> r.lines[j] == d.lines[j] && r.previews[j] == d.previews[j]) &&
      (forall j :: idx < j < |d.lines| && j != t ==> r.lines[j - 1] == d.lines[j] && r.previews[j - 1] == d.previews[j]) &&
      r.focus == nt && r.caret == AtEnd
  {
    if |d.lines| > 1 && caret == 0 then
      var merged := MergeText(d, MergeTarget(idx), SplitAt(d.previews[idx].shown, caret).1);
      merged.(lines := SpliceOut(merged.lines, idx), previews := SpliceOut(merged.previews, idx),
              focus := if idx > 0 then idx - 1 else 0, caret := AtEnd)
    else
      d
  }

  /** The first half of a merge: when the removed text is non-empty, the
      target's txt and shown text both become the joined text. */
  function MergeText(d: Doc, t: nat, removed: string): (r: Doc)
    requires t < |d.lines| && |d.previews| == |d.lines|
    ensures |r.lines| == |d.lines| && |r.previews| == |d.previews| && r.focus == d.focus && r.caret == d.caret
    ensures r.lines[t] == d.lines[t].(txt := Joined(d.lines[t].txt, removed))
    ensures r.previews[t] == if removed != [] then d.previews[t].(shown := Joined(d.lines[t].txt, removed)) else d.previews[t]
    ensures forall j :: 0 <= j < |d.lines| && j != t ==> r.lines[j] == d.lines[j] && r.previews[j] == d.previews[j]
  {
    if removed != [] then
      var txt := d.lines[t].txt + " " + removed;
      d.(lines := d.lines[t := d.lines[t].(txt := txt)], previews := d.previews[t := d.previews[t].(shown := txt)])
    else d
  }

  /** Backspace keeps the store's invariant: in particular a merge never
      removes the last line. */
  lemma BackspaceKeepsInv(d: Doc, idx: nat, caret: nat)
    requires Inv(d) && idx < |d.lines|
    ensures Inv(BackspaceDoc(d, idx, caret))
  {
    if |d.lines| > 1 && caret == 0 {
      var t := MergeTarget(idx);
      var merged := MergeText(d, t, SplitAt(d.previews[idx].shown, caret).1);
      assert Synced(merged) by {
        forall i | 0 <= i < |merged.lines|
          ensures merged.previews[i].fontFamily == merged.lines[i].font &&
                  merged.previews[i].fontSize == ComputeSize(merged.lines[i].size)
        {
          if i != t { assert merged.lines[i] == d.lines[i] && merged.previews[i] == d.previews[i]; }
        }
      }
      var r := BackspaceDoc(d, idx, caret);
      forall i | 0 <= i < |r.lines|
        ensures r.previews[i].fontFamily == r.lines[i].font &&
                r.previews[i].fontSize == ComputeSize(r.lines[i].size)
      {
        if i >= idx { assert r.lines[i] == merged.lines[i + 1] && r.previews[i] == merged.previews[i + 1]; }
        else { assert r.lines[i] == merged.lines[i] && r.previews[i] == merged.previews[i]; }
      }
    }
  }

  /** The keydown handler: Backspace with the caret at 0 and more than one
      line merges; Enter splits; any other key, and a Backspace that does not
      qualify, leaves the store alone (the browser edits the text natively). */
  function KeyDownDoc(d: Doc, idx: nat, key: Key, caret: nat): (r: Doc)
    requires idx < |d.lines| && |d.previews| == |d.lines|
    ensures key == OtherKey ==> r == d
    ensures key == Backspace && (caret != 0 || |d.lines| == 1) ==> r == d
    ensures key == Enter ==> |r.lines| == |d.lines| + 1
    ensures key == Backspace && caret == 0 && |d.lines| > 1 ==> |r.lines| == |d.lines| - 1
  {
    if key == Backspace && |d.lines| > 1 && caret == 0 then BackspaceDoc(d, idx, caret)
    else if key == Enter then EnterDoc(d, idx, caret)
    else d
  }
}
