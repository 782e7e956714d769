/** JavaScript string behaviour the line editor relies on: splitting the
    displayed text at the caret (`slice`), `String.prototype.trim`, and the
    CSS font-size string built by `computeSize` (`s + 'px'`). */
module JsText {

  datatype Option<T> = None | Some(value: T)

  function Min(a: nat, b: nat): nat { if a <= b then a else b }

  /** `getTextBeforeAndAfter`: `[t.slice(0, caret), t.slice(caret)]`.
      JavaScript's `slice` clamps an offset past the end to the length, so
      any caret is accepted; the two halves always put the text back
      together and the first one is exactly the caret (clamped) long. */
  function SplitAt(t: string, caret: nat): (parts: (string, string))
    ensures parts.0 + parts.1 == t
    ensures |parts.0| == Min(caret, |t|)
  {
    var k := Min(caret, |t|);
    (t[..k], t[k..])
  }

  /** The characters `trim` removes: ECMAScript's WhiteSpace
      (TAB, VT, FF, SP, NBSP, ZWNBSP and the Unicode "Zs" category) and
      LineTerminator (LF, CR, LS, PS). */
  const WHITESPACE: set<char> :=
    {'\t', '\n', '\U{000B}', '\U{000C}', '\r', ' ', '\U{00A0}', '\U{1680}',
     '\U{2000}', '\U{2001}', '\U{2002}', '\U{2003}', '\U{2004}', '\U{2005}',
     '\U{2006}', '\U{2007}', '\U{2008}', '\U{2009}', '\U{200A}',
     '\U{2028}', '\U{2029}', '\U{202F}', '\U{205F}', '\U{3000}', '\U{FEFF}'}

  predicate IsWhitespace(c: char) { c in WHITESPACE }

  /** Every printable ASCII character other than the space is kept by `trim`. */
  lemma VisibleAscii(c: char)
    requires ' ' < c <= '~'
    ensures !IsWhitespace(c)
  {
  }

  predicate AllWhitespace(s: string) {
    forall i :: 0 <= i < |s| ==> IsWhitespace(s[i])
  }

  /** Neither end of `s` is whitespace (vacuously true of the empty string). */
  predicate Trimmed(s: string) {
    s == [] || (!IsWhitespace(s[0]) && !IsWhitespace(s[|s| - 1]))
  }

  /** Scanning forward from `i`: the first index at or after `i` that is not
      whitespace, or `|s|`. */
  function SkipForward(s: string, i: nat): (n: nat)
    requires i <= |s|
    ensures i <= n <= |s|
    ensures forall j :: i <= j < n ==> IsWhitespace(s[j])
    ensures n < |s| ==> !IsWhitespace(s[n])
    decreases |s| - i
  {
    if i < |s| && IsWhitespace(s[i]) then SkipForward(s, i + 1) else i
  }

  /** Scanning backward from `e`: the smallest `n <= e` such that everything
      in `[n, e)` is whitespace. */
  function SkipBackward(s: string, e: nat): (n: nat)
    requires e <= |s|
    ensures n <= e
    ensures forall j :: n <= j < e ==> IsWhitespace(s[j])
    ensures n > 0 ==> !IsWhitespace(s[n - 1])
    decreases e
  {
    if e > 0 && IsWhitespace(s[e - 1]) then SkipBackward(s, e - 1) else e
  }

  /** `String.prototype.trim`: `s` is whitespace, then the result, then
      whitespace, and the result has no whitespace at either end. */
  function Trim(s: string): (r: string)
    ensures Trimmed(r)
    ensures var k := SkipForward(s, 0);
            k + |r| <= |s| && r == s[k..k + |r|] &&
            AllWhitespace(s[..k]) && AllWhitespace(s[k + |r|..])
  {
    var k := SkipForward(s, 0);
    var e := SkipBackward(s, |s|);
    if k == |s| then
      assert AllWhitespace(s[..k]);
      []
    else
      assert !IsWhitespace(s[k]);
      assert k < e;
      var r := s[k..e];
      assert AllWhitespace(s[..k]) && AllWhitespace(s[e..]);
      r
  }

  /** Reference characterisation of `trim`: whatever whitespace surrounds a
      text with no whitespace at its ends, `trim` gives back exactly that text. */
  lemma TrimSurrounded(a: string, m: string, b: string)
    requires AllWhitespace(a) && AllWhitespace(b) && Trimmed(m)
    ensures Trim(a + m + b) == m
  {
    var s := a + m + b;
    var k := SkipForward(s, 0);
    var e := SkipBackward(s, |s|);
    if m == [] {
      assert AllWhitespace(s);
      assert k == |s|;
    } else {
      assert s[|a|] == m[0] && s[|a| + |m| - 1] == m[|m| - 1];
      assert forall j :: 0 <= j < |a| ==> s[j] == a[j];
      assert forall j :: |a| + |m| <= j < |s| ==> s[j] == b[j - |a| - |m|];
      assert k == |a|;
      assert e == |a| + |m|;
      assert s[k..e] == m;
    }
  }

  /** Trimming twice is trimming once. */
  lemma TrimIdempotent(s: string)
    ensures Trim(Trim(s)) == Trim(s)
  {
    var r := Trim(s);
    assert [] + r + [] == r;
    TrimSurrounded([], r, []);
  }

  // ----- computeSize: `s + 'px'` -----

  function DigitChar(d: nat): (c: char)
    requires d < 10
    ensures '0' <= c <= '9' && DigitValue(c) == Some(d)
  {
    ('0' as int + d) as char
  }

  function DigitValue(c: char): Option<nat> {
    if '0' <= c <= '9' then Some(c as int - '0' as int) else None
  }

  /** JavaScript's decimal rendering of a non-negative integer. */
  function NatString(n: nat): (r: string)
    ensures |r| >= 1 && forall i :: 0 <= i < |r| ==> '0' <= r[i] <= '9'
    decreases n
  {
    if n < 10 then [DigitChar(n)] else NatString(n / 10) + [DigitChar(n % 10)]
  }

  /** JavaScript's decimal rendering of an integer (`String(n)`). */
  function IntString(n: int): (r: string)
    ensures |r| >= 1 && (r[0] == '-' <==> n < 0)
  {
    if n < 0 then "-" + NatString(-n) else NatString(n)
  }

  /** `computeSize` (app.js): the CSS font-size value for a size in pixels.
      It is a length: decimal digits, led by a minus sign exactly when the
      size is negative, then the unit `px`. */
  function ComputeSize(size: int): (r: string)
    ensures |r| >= 3 && r[|r| - 2..] == "px"
    ensures r[0] == '-' <==> size < 0
    ensures forall i :: (if size < 0 then 1 else 0) <= i < |r| - 2 ==> '0' <= r[i] <= '9'
  {
    var body := IntString(size);
    var r := body + "px";
    assert r[..|body|] == body && r[|r| - 2..] == "px";
    r
  }

  /** The value of a string of decimal digits; None for an empty string or a non-digit. */
  function ParseDigits(s: string): Option<nat>
    decreases |s|
  {
    if s == [] then None
    else
      match DigitValue(s[|s| - 1])
      case None => None
      case Some(d) =>
        if |s| == 1 then Some(d)
        else
          match ParseDigits(s[..|s| - 1])
          case None => None
          case Some(v) => Some(10 * v + d)
  }

  /** The number of pixels an integer `font-size` value `"<digits>px"`
      denotes; None when the string is not of that form. CSS does not allow
      a negative font-size, so a value led by a minus sign is None too. */
  function PxValue(s: string): Option<nat> {
    if |s| < 2 || s[|s| - 2..] != "px" then None
    else
      var body := s[..|s| - 2];
      if body != [] && body[0] == '-' then None
      else
        match ParseDigits(body)
        case None => None
        case Some(v) => Some(v)
  }

  lemma {:induction false} NatStringParses(n: nat)
    ensures ParseDigits(NatString(n)) == Some(n)
    decreases n
  {
    var s := NatString(n);
    if n < 10 {
      assert s == [DigitChar(n)];
    } else {
      var p := NatString(n / 10);
      assert s == p + [DigitChar(n % 10)];
      assert s[..|s| - 1] == p;
      NatStringParses(n / 10);
    }
  }

  /** `computeSize` loses nothing for a size CSS accepts: the font-size
      string denotes exactly the size assigned. A negative size gives a
      string that is not a valid font-size. */
  lemma ComputeSizeRoundTrip(size: int)
    ensures PxValue(ComputeSize(size)) == if size >= 0 then Some(size) else None
  {
    var body := IntString(size);
    var s := body + "px";
    assert s[..|s| - 2] == body;
    if size >= 0 {
      NatStringParses(size);
    }
  }

  lemma NatStringInjective(m: nat, n: nat)
    requires NatString(m) == NatString(n)
    ensures m == n
  {
    NatStringParses(m);
    NatStringParses(n);
  }

  /** Two different integers never have the same decimal rendering. */
  lemma IntStringInjective(a: int, b: int)
    requires IntString(a) == IntString(b)
    ensures a == b
  {
    if a < 0 && b < 0 {
      assert IntString(a)[1..] == NatString(-a) && IntString(b)[1..] == NatString(-b);
      NatStringInjective(-a, -b);
    } else if a >= 0 && b >= 0 {
      NatStringInjective(a, b);
    }
  }

  /** Two different sizes never render as the same font-size string, negative
      ones included. */
  lemma ComputeSizeInjective(a: int, b: int)
    requires ComputeSize(a) == ComputeSize(b)
    ensures a == b
  {
    var s := ComputeSize(a);
    assert s[..|s| - 2] == IntString(a) && s[..|s| - 2] == IntString(b);
    IntStringInjective(a, b);
  }
}
