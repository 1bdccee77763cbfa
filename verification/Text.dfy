/** Python's view of whitespace, and stripping it from both ends of a text. */
module Text {
  /** The characters `str.strip` removes. */
  predicate IsSpace(c: char) {
    var code := c as int;
    || 0x09 <= code <= 0x0D || 0x1C <= code <= 0x20 || code == 0x85 || code == 0xA0
    || code == 0x1680 || 0x2000 <= code <= 0x200A || code == 0x2028 || code == 0x2029
    || code == 0x202F || code == 0x205F || code == 0x3000
  }

  /** The first position in `lo..hi` that is not whitespace, or `hi`. */
  function SkipSpace(s: string, lo: nat, hi: nat): (i: nat)
    requires lo <= hi <= |s|
    ensures lo <= i <= hi
    ensures forall k | lo <= k < i :: IsSpace(s[k])
    ensures i < hi ==> !IsSpace(s[i])
    decreases hi - lo
  {
    if lo < hi && IsSpace(s[lo]) then SkipSpace(s, lo + 1, hi) else lo
  }

  /** The end of the last non-whitespace position in `lo..hi`, or `lo`. */
  function TrimSpace(s: string, lo: nat, hi: nat): (j: nat)
    requires lo <= hi <= |s|
    ensures lo <= j <= hi
    ensures forall k | j <= k < hi :: IsSpace(s[k])
    ensures lo < j ==> !IsSpace(s[j - 1])
    decreases hi - lo
  {
    if lo < hi && IsSpace(s[hi - 1]) then TrimSpace(s, lo, hi - 1) else hi
  }

  /** `s[lo:hi].strip()` as the bounds of what is left. */
  function StripBounds(s: string, lo: nat, hi: nat): (bounds: (nat, nat))
    requires lo <= hi <= |s|
    ensures lo <= bounds.0 <= bounds.1 <= hi
    ensures forall k | lo <= k < hi && !IsSpace(s[k]) :: bounds.0 <= k < bounds.1
    ensures bounds.0 < bounds.1 ==> !IsSpace(s[bounds.0]) && !IsSpace(s[bounds.1 - 1])
    ensures bounds.0 == bounds.1 <==> forall k | lo <= k < hi :: IsSpace(s[k])
  {
    var i := SkipSpace(s, lo, hi);
    (i, TrimSpace(s, i, hi))
  }

  function Strip(s: string): string {
    var bounds := StripBounds(s, 0, |s|);
    s[bounds.0..bounds.1]
  }

  predicate Stripped(s: string) {
    s == "" || (!IsSpace(s[0]) && !IsSpace(s[|s| - 1]))
  }

  lemma StripStrips(s: string)
    ensures Stripped(Strip(s))
  {
  }

  lemma StripFixes(s: string)
    requires Stripped(s)
    ensures Strip(s) == s
  {
    if s != "" {
      assert !IsSpace(s[0]) && !IsSpace(s[|s| - 1]);
    }
  }
}
