/** The few string operations of the Rust standard library that the number layer relies on. */
module Text {
  import opened Wrappers

  /** `"0".repeat(n)` */
  function Zeros(n: nat): (z: string)
    ensures |z| == n
    ensures forall k :: 0 <= k < n ==> z[k] == '0'
  {
    seq(n, _ => '0')
  }

  predicate AllZeros(s: string) {
    forall k :: 0 <= k < |s| ==> s[k] == '0'
  }

  /**
   * `s.find(c)` for a `char` pattern: the index of the first occurrence of `c`.
   * Indices are character positions; they coincide with Rust's byte offsets on
   * ASCII text.
   */
  function Find(s: string, c: char): (r: Option<nat>)
    ensures r.None? <==> c !in s
    ensures r.Some? ==> r.value < |s| && s[r.value] == c && c !in s[..r.value]
  {
    if s == [] then None
    else if s[0] == c then Some(0)
    else
      match Find(s[1..], c)
      case None => None
      case Some(p) =>
        assert s[..p + 1] == [s[0]] + s[1..][..p];
        Some(p + 1)
  }

  /** Appending text after a string that already contains `c` does not move its first occurrence. */
  lemma FindAppend(s: string, t: string, c: char)
    requires c in s
    ensures Find(s + t, c) == Find(s, c)
  {
    var p := Find(s, c).value;
    assert (s + t)[p] == c;
    assert (s + t)[..p] == s[..p];
  }

  /** In `s + t` whose first character of `t` is `c` and `s` lacks `c`, the first `c` is at `|s|`. */
  lemma FindAfter(s: string, t: string, c: char)
    requires c !in s && t != [] && t[0] == c
    ensures Find(s + t, c) == Some(|s|)
  {
    assert (s + t)[|s|] == c;
    assert (s + t)[..|s|] == s;
  }
}
