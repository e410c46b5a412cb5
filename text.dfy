/**
 * The two string primitives the task controller relies on, as JavaScript
 * defines them: `String.prototype.trim` and the `length` property, which
 * counts UTF-16 code units.
 */
module Text {

  /**
   * The characters `trim` removes: ECMAScript's WhiteSpace (TAB, VT, FF,
   * SPACE, NO-BREAK SPACE, ZERO WIDTH NO-BREAK SPACE and the Unicode
   * space separators) and LineTerminator (LF, CR, LS, PS) code points.
   */
  predicate IsWhitespace(c: char) {
    var u := c as int;
    (0x09 <= u <= 0x0D) || u == 0x20 || u == 0xA0 || u == 0x1680
    || (0x2000 <= u <= 0x200A) || u == 0x2028 || u == 0x2029
    || u == 0x202F || u == 0x205F || u == 0x3000 || u == 0xFEFF
  }

  predicate AllWhitespace(s: string) {
    forall i :: 0 <= i < |s| ==> IsWhitespace(s[i])
  }

  /** No whitespace at either end: what `trim` leaves behind. */
  predicate Trimmed(s: string) {
    s == [] || (!IsWhitespace(s[0]) && !IsWhitespace(s[|s| - 1]))
  }

  /**
   * `s.trim()`: strips whitespace from both ends. Never longer than `s`, in
   * characters or in code units.
   */
  function Trim(s: string): (r: string)
    ensures Trimmed(r)
    ensures r == [] <==> AllWhitespace(s)
    ensures |r| <= |s| && Utf16Length(r) <= Utf16Length(s)
  {
    if s == [] then []
    else if IsWhitespace(s[0]) then
      var r := Trim(s[1..]);
      assert AllWhitespace(s) <==> AllWhitespace(s[1..]) by {
        if AllWhitespace(s[1..]) {
          forall i | 0 <= i < |s| ensures IsWhitespace(s[i]) {
            if i > 0 { assert s[i] == s[1..][i - 1]; }
          }
        }
      }
      r
    else if IsWhitespace(s[|s| - 1]) then
      var r := Trim(s[..|s| - 1]);
      Utf16LengthOfPrefix(s, |s| - 1);
      r
    else s
  }

  /** Leading whitespace makes no difference to the trimmed result. */
  lemma {:induction false} TrimSkipsFront(pad: string, t: string)
    requires AllWhitespace(pad)
    ensures Trim(pad + t) == Trim(t)
  {
    if pad != [] {
      assert (pad + t)[1..] == pad[1..] + t;
      TrimSkipsFront(pad[1..], t);
    } else {
      assert pad + t == t;
    }
  }

  /** Trailing whitespace after text that does not start with whitespace makes no difference either. */
  lemma {:induction false} TrimSkipsBack(t: string, pad: string)
    requires AllWhitespace(pad)
    requires t == [] || !IsWhitespace(t[0])
    ensures Trim(t + pad) == Trim(t)
  {
    if pad != [] {
      assert (t + pad)[..|t + pad| - 1] == t + pad[..|pad| - 1];
      TrimSkipsBack(t, pad[..|pad| - 1]);
    } else {
      assert t + pad == t;
    }
  }

  /**
   * `trim` is characterised by its result: whatever text without whitespace
   * at its ends is surrounded by whitespace, trimming yields exactly it.
   */
  lemma {:induction false} TrimOfPadded(before: string, core: string, after: string)
    requires AllWhitespace(before) && AllWhitespace(after) && Trimmed(core)
    ensures Trim(before + core + after) == core
  {
    var tail := core + after;
    assert before + core + after == before + tail;
    TrimOfTail(core, after);
    TrimSkipsFront(before, tail);
  }

  /** Trailing whitespace after text without whitespace at its ends is removed, and nothing else. */
  lemma {:induction false} TrimOfTail(core: string, after: string)
    requires AllWhitespace(after) && Trimmed(core)
    ensures Trim(core + after) == core
  {
    TrimSkipsBack(core, after);
    TrimOfTrimmed(core);
  }

  /** Text without whitespace at its ends is left as it is. */
  lemma {:induction false} TrimOfTrimmed(s: string)
    requires Trimmed(s)
    ensures Trim(s) == s
  {
  }

  /** Trimming twice trims nothing more. */
  lemma TrimIdempotent(s: string)
    ensures Trim(Trim(s)) == Trim(s)
  {
    var r := Trim(s);
    assert [] + r + [] == r;
    TrimOfPadded([], r, []);
  }

  /** UTF-16 code units needed for one character: two above the Basic Multilingual Plane. */
  function CodeUnits(c: char): nat {
    if c as int >= 0x10000 then 2 else 1
  }

  /** JavaScript's `s.length`: the number of UTF-16 code units of `s`. */
  function Utf16Length(s: string): (n: nat)
    ensures |s| <= n <= 2 * |s|
  {
    if s == [] then 0 else CodeUnits(s[0]) + Utf16Length(s[1..])
  }

  /** Dropping characters from the back never makes a text longer in code units. */
  lemma {:induction false} Utf16LengthOfPrefix(s: string, k: nat)
    requires k <= |s|
    ensures Utf16Length(s[..k]) <= Utf16Length(s)
  {
    if k > 0 {
      assert s[..k][1..] == s[1..][..k - 1];
      Utf16LengthOfPrefix(s[1..], k - 1);
    }
  }

  /** For text inside the Basic Multilingual Plane `length` is the character count. */
  lemma {:induction false} Utf16LengthOfBmp(s: string)
    requires forall i :: 0 <= i < |s| ==> s[i] as int < 0x10000
    ensures Utf16Length(s) == |s|
  {
    if s != [] {
      Utf16LengthOfBmp(s[1..]);
    }
  }

  /** `n` copies of `c`. */
  function Repeat(c: char, n: nat): (s: string)
    ensures |s| == n && forall i :: 0 <= i < n ==> s[i] == c
  {
    if n == 0 then [] else [c] + Repeat(c, n - 1)
  }
}
