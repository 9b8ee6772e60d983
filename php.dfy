/** The PHP string built-ins the registration page relies on, on byte strings:
    `empty` on a string, `trim` with its default character list, `strlen`,
    and the three single-class `preg_match` tests of the password policy. */
module Php {

  /** PHP strings are byte strings; `strlen` counts bytes. */
  newtype Byte = b: int | 0 <= b < 256
  type Bytes = seq<Byte>

  /** The byte string spelled by an ASCII literal. */
  function Ascii(s: string): Bytes
    requires forall i :: 0 <= i < |s| ==> s[i] as int < 256
  {
    seq(|s|, i requires 0 <= i < |s| => s[i] as int as Byte)
  }

  /** `empty($s)` for a string `$s`: true for "" and for "0", so any string
      of two or more bytes ("00", " 0", "0.0") counts as present. */
  predicate IsEmpty(s: Bytes)
    ensures IsEmpty(s) ==> |s| <= 1
    ensures |s| == 0 ==> IsEmpty(s)
    ensures |s| == 1 ==> (IsEmpty(s) <==> s[0] == 0x30)
  {
    s == [] || s == [0x30]
  }

  /** The bytes `trim` strips by default: " ", "\t", "\n", "\r", "\0", "\x0B". */
  predicate IsTrimmable(b: Byte) {
    b == 0x20 || b == 0x09 || b == 0x0A || b == 0x0D || b == 0x00 || b == 0x0B
  }

  /** The forward scan of `trim`: the first index at or after `i` that does
      not hold a trimmable byte, or the end of `s`. */
  function SkipForward(s: Bytes, i: nat): (r: nat)
    requires i <= |s|
    ensures i <= r <= |s|
    ensures forall k :: i <= k < r ==> IsTrimmable(s[k])
    ensures r < |s| ==> !IsTrimmable(s[r])
    decreases |s| - i
  {
    if i < |s| && IsTrimmable(s[i]) then SkipForward(s, i + 1) else i
  }

  /** The backward scan of `trim`, which never passes `lo`: the end of the
      last byte before `j` that is not trimmable, or `lo`. */
  function SkipBackward(s: Bytes, lo: nat, j: nat): (r: nat)
    requires lo <= j <= |s|
    ensures lo <= r <= j
    ensures forall k :: r <= k < j ==> IsTrimmable(s[k])
    ensures lo < r ==> !IsTrimmable(s[r - 1])
    decreases j
  {
    if lo < j && IsTrimmable(s[j - 1]) then SkipBackward(s, lo, j - 1) else j
  }

  /** `trim` with the default character list: scan forward past the leading
      trimmable bytes, then backward, down to that point, past the trailing
      ones, and keep what lies between. */
  function Trim(s: Bytes): (r: Bytes)
    ensures |r| <= |s|
    ensures r == [] || (!IsTrimmable(r[0]) && !IsTrimmable(r[|r| - 1]))
  {
    var lo := SkipForward(s, 0);
    s[lo..SkipBackward(s, lo, |s|)]
  }

  /** `s[lo..hi]` is what is left of `s` once its trimmable ends are cut:
      everything outside is trimmable and a non-empty middle starts and ends
      with a byte that is not. */
  ghost predicate StripsTo(s: Bytes, lo: int, hi: int) {
    && 0 <= lo <= hi <= |s|
    && (forall i :: 0 <= i < lo ==> IsTrimmable(s[i]))
    && (forall i :: hi <= i < |s| ==> IsTrimmable(s[i]))
    && (lo < hi ==> !IsTrimmable(s[lo]) && !IsTrimmable(s[hi - 1]))
  }

  /** Trim cuts exactly the trimmable ends of its input. */
  lemma TrimStrips(s: Bytes)
    ensures exists lo, hi :: StripsTo(s, lo, hi) && Trim(s) == s[lo..hi]
  {
    var lo := SkipForward(s, 0);
    var hi := SkipBackward(s, lo, |s|);
    assert StripsTo(s, lo, hi);
  }

  /** Any cut of the trimmable ends is the one Trim makes: with TrimStrips,
      this characterises Trim completely. */
  lemma TrimIsUniqueStrip(s: Bytes, lo: int, hi: int)
    requires StripsTo(s, lo, hi)
    ensures Trim(s) == s[lo..hi]
  {
    var lo' := SkipForward(s, 0);
    var hi' := SkipBackward(s, lo', |s|);
    if lo < hi {
      // neither scan can stop short of, or run past, a non-trimmable end
      assert lo' == lo;
      assert hi' == hi;
    } else {
      // all of s is trimmable, so the forward scan reaches its end
      assert lo' == |s|;
    }
  }

  /** `trim(" 0\t")` is "0". */
  lemma TrimExample()
    ensures Trim([0x20, 0x30, 0x09]) == [0x30]
  {
    var s: Bytes := [0x20, 0x30, 0x09];
    assert StripsTo(s, 1, 2);
    TrimIsUniqueStrip(s, 1, 2);
  }

  /** Trimming twice is trimming once. */
  lemma TrimIdempotent(s: Bytes)
    ensures Trim(Trim(s)) == Trim(s)
  {
    var r := Trim(s);
    TrimIsUniqueStrip(r, 0, |r|);
  }

  /** `preg_match('/[A-Z]/', $s)`: the scan succeeds at the first byte or
      later in the string. */
  predicate HasUpper(s: Bytes) {
    exists i :: 0 <= i < |s| && 0x41 <= s[i] <= 0x5A
  }

  /** `preg_match('/[a-z]/', $s)`: the scan succeeds at the first byte or
      later in the string. */
  predicate HasLower(s: Bytes) {
    exists i :: 0 <= i < |s| && 0x61 <= s[i] <= 0x7A
  }

  /** One of the bytes of the class `[0-9!@#$%^&*]`. */
  predicate IsDigitOrSymbol(b: Byte) {
    || 0x30 <= b <= 0x39
    || b == 0x21 || b == 0x40 || b == 0x23 || b == 0x24
    || b == 0x25 || b == 0x5E || b == 0x26 || b == 0x2A
  }

  /** `preg_match('/[0-9!@#$%^&*]/', $s)`: the scan succeeds at the first
      byte or later in the string. */
  predicate HasDigitOrSymbol(s: Bytes) {
    exists i :: 0 <= i < |s| && IsDigitOrSymbol(s[i])
  }

  /** Each class test looks for one byte anywhere in the string, so it holds
      on a concatenation exactly when it holds on one of the two parts. */
  lemma ClassTestsSplit(a: Bytes, b: Bytes)
    ensures HasUpper(a + b) <==> HasUpper(a) || HasUpper(b)
    ensures HasLower(a + b) <==> HasLower(a) || HasLower(b)
    ensures HasDigitOrSymbol(a + b) <==> HasDigitOrSymbol(a) || HasDigitOrSymbol(b)
  {
    forall i | 0 <= i < |a| ensures (a + b)[i] == a[i] { }
    forall i | 0 <= i < |b| ensures (a + b)[|a| + i] == b[i] { }
    if HasUpper(a + b) {
      var i :| 0 <= i < |a + b| && 0x41 <= (a + b)[i] <= 0x5A;
      if i < |a| { assert a[i] == (a + b)[i]; } else { assert b[i - |a|] == (a + b)[i]; }
    }
    if HasLower(a + b) {
      var i :| 0 <= i < |a + b| && 0x61 <= (a + b)[i] <= 0x7A;
      if i < |a| { assert a[i] == (a + b)[i]; } else { assert b[i - |a|] == (a + b)[i]; }
    }
    if HasDigitOrSymbol(a + b) {
      var i :| 0 <= i < |a + b| && IsDigitOrSymbol((a + b)[i]);
      if i < |a| { assert a[i] == (a + b)[i]; } else { assert b[i - |a|] == (a + b)[i]; }
    }
  }
}
