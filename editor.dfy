/** The editor as app.js runs it: `LINES` and the `EDITOR` container are
    changed in place by `addLine`, the Proxy set trap and the keydown
    handler. Each method performs the source's steps in the source's order
    and is proved to end in the state the matching `LineModel` function
    describes, keeping the store's invariant. */
module LineEditor {
  import opened JsText
  import opened LineModel

  class Editor {
    /** `LINES`: the props of each line, top to bottom. */
    var lines: seq<Line>
    /** The preview element of each line, in `EDITOR` order. */
    var previews: seq<Preview>
    /** The line `placeCaret` last focused, and where it put the caret. */
    var focus: nat
    var caretAt: Caret

    ghost function State(): Doc
      reads this
    {
      Doc(lines, previews, focus, caretAt)
    }

    ghost predicate Valid()
      reads this
    {
      Inv(State())
    }

    /** Loading the script: `LINES` starts empty and the bootstrap call
        `addLine({ txt: 'Try Me...' })` puts the one first line in it. */
    constructor ()
      ensures Valid()
      ensures lines == [Line("Try Me...", FONTS[0], DEFAULT_SIZE)]
      ensures previews == [Render(lines[0])]
      ensures focus == 0 && caretAt == AtStart
    {
      lines := [];
      previews := [];
      focus := 0;
      caretAt := AtStart;
      new;
      AddLine(Props(Some("Try Me..."), None, None), 0);
    }

    /** `addLine(props, insertAt)`. */
    method AddLine(props: Props, insertAt: nat)
      requires Synced(State())
      modifies this
      ensures State() == AddLineDoc(old(State()), props, insertAt)
      ensures Valid()
    {
      var line := WithDefaults(props);
      var at := Min(insertAt + 1, |lines|);
      lines := lines[..at] + [line] + lines[at..];
      previews := previews[..at] + [Render(line)] + previews[at..];
      focus, caretAt := at, AtStart;
      AddLineKeepsInv(old(State()), props, insertAt);
    }

    /** The Proxy `set` trap: the style side effect first, then the store. */
    method Assign(idx: nat, a: Assignment)
      requires Valid() && idx < |lines|
      modifies this
      ensures State() == AssignDoc(old(State()), idx, a)
      ensures Valid()
    {
      match a
      case SizeTo(n) =>
        previews := previews[idx := previews[idx].(fontSize := ComputeSize(n))];
        lines := lines[idx := lines[idx].(size := n)];
      case FontTo(f) =>
        previews := previews[idx := previews[idx].(fontFamily := f)];
        lines := lines[idx := lines[idx].(font := f)];
      case TxtTo(t) =>
        lines := lines[idx := lines[idx].(txt := t)];
    }

    /** The font select's change handler. */
    method SetFont(idx: nat, font: string)
      requires Valid() && idx < |lines|
      modifies this
      ensures State() == AssignDoc(old(State()), idx, FontTo(font))
      ensures Valid()
    {
      Assign(idx, FontTo(font));
    }

    /** The size input's change handler: the value is stored unchecked. */
    method SetSize(idx: nat, size: int)
      requires Valid() && idx < |lines|
      modifies this
      ensures State() == AssignDoc(old(State()), idx, SizeTo(size))
      ensures Valid()
    {
      Assign(idx, SizeTo(size));
    }

    /** `handleTxtChange`: the stored text catches up with the shown text. */
    method SyncText(idx: nat)
      requires Valid() && idx < |lines|
      modifies this
      ensures State() == SyncTextDoc(old(State()), idx)
      ensures Valid()
    {
      Assign(idx, TxtTo(previews[idx].shown));
    }

    /** The browser editing a preview's text on its own. */
    method NativeEdit(idx: nat, shown: string)
      requires Valid() && idx < |lines|
      modifies this
      ensures State() == NativeEditDoc(old(State()), idx, shown)
      ensures Valid()
    {
      previews := previews[idx := previews[idx].(shown := shown)];
    }

    /** Enter on line `idx` with the caret at `offset`. */
    method Enter(idx: nat, offset: nat)
      requires Valid() && idx < |lines|
      modifies this
      ensures State() == EnterDoc(old(State()), idx, offset)
      ensures Valid()
    {
      var parts := SplitAt(previews[idx].shown, offset);
      var before, after := parts.0, parts.1;
      previews := previews[idx := previews[idx].(shown := before)];
      Assign(idx, TxtTo(before));
      var cur := lines[idx];
      AddLine(Props(Some(Trim(after)), Some(cur.font), Some(cur.size)), idx);
      EnterKeepsInv(old(State()), idx, offset);
    }

    /** Backspace on line `idx` with the caret at `offset`. */
    method Backspace(idx: nat, offset: nat)
      requires Valid() && idx < |lines|
      modifies this
      ensures State() == BackspaceDoc(old(State()), idx, offset)
      ensures Valid()
    {
      if |lines| > 1 && offset == 0 {
        var t := MergeTarget(idx);
        var after := SplitAt(previews[idx].shown, offset).1;
        if after != [] {
          Assign(t, TxtTo(lines[t].txt + " " + after));
          previews := previews[t := previews[t].(shown := lines[t].txt)];
        }
        previews := previews[..idx] + previews[idx + 1..];
        lines := lines[..idx] + lines[idx + 1..];
        focus, caretAt := if idx > 0 then idx - 1 else 0, AtEnd;
        BackspaceKeepsInv(old(State()), idx, offset);
      }
    }

    /** The keydown handler of line `idx`. */
    method KeyDown(idx: nat, key: Key, offset: nat)
      requires Valid() && idx < |lines|
      modifies this
      ensures State() == KeyDownDoc(old(State()), idx, key, offset)
      ensures Valid()
    {
      if key == Key.Backspace && |lines| > 1 && offset == 0 {
        Backspace(idx, offset);
      } else if key == Key.Enter {
        Enter(idx, offset);
      }
    }
  }
}
