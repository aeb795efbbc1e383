/** The few string operations the runtime uses to build error descriptions:
    decimal rendering of integers, `join` over a list of strings, and what it
    means for one string to mention another. */
module Text {

  function DigitChar(d: nat): char
    requires d < 10
  {
    "0123456789"[d]
  }

  /** Decimal rendering of a natural number, as Rust's `Display` for integers. */
  function Decimal(n: nat): string
    decreases n
  {
    if n < 10 then [DigitChar(n)] else Decimal(n / 10) + [DigitChar(n % 10)]
  }

  /** `parts.join(sep)` */
  function Join(parts: seq<string>, sep: string): string
    decreases |parts|
  {
    if |parts| == 0 then ""
    else if |parts| == 1 then parts[0]
    else parts[0] + sep + Join(parts[1..], sep)
  }

  /** Where the `k`-th part starts inside `Join(parts, sep)`. */
  function JoinOffset(parts: seq<string>, sep: string, k: nat): nat
    requires k < |parts|
    decreases k
  {
    if k == 0 then 0 else |parts[0]| + |sep| + JoinOffset(parts[1..], sep, k - 1)
  }

  /** `t` occurs in `s` starting at position `i`. */
  ghost predicate OccursAt(s: string, t: string, i: int)
  {
    0 <= i && i + |t| <= |s| && s[i..i + |t|] == t
  }

  /** `t` occurs as a contiguous piece of `s`. */
  ghost predicate Mentions(s: string, t: string)
  {
    exists i :: OccursAt(s, t, i)
  }

  /** Every part of a join can be found, unchanged, at its offset in the result. */
  lemma {:induction false} JoinContains(parts: seq<string>, sep: string, k: nat)
    requires k < |parts|
    ensures JoinOffset(parts, sep, k) + |parts[k]| <= |Join(parts, sep)|
    ensures Join(parts, sep)[JoinOffset(parts, sep, k)..JoinOffset(parts, sep, k) + |parts[k]|] == parts[k]
    decreases k
  {
    if |parts| == 1 {
      assert Join(parts, sep) == parts[0];
    } else if k == 0 {
      var j := Join(parts, sep);
      assert j == parts[0] + (sep + Join(parts[1..], sep));
      assert j[..|parts[0]|] == parts[0];
    } else {
      var rest := parts[1..];
      JoinContains(rest, sep, k - 1);
      var head := parts[0] + sep;
      var off := JoinOffset(rest, sep, k - 1);
      assert Join(parts, sep) == head + Join(rest, sep);
      assert JoinOffset(parts, sep, k) == |head| + off;
      assert rest[k - 1] == parts[k];
      assert (head + Join(rest, sep))[|head| + off..|head| + off + |parts[k]|]
          == Join(rest, sep)[off..off + |parts[k]|];
    }
  }

  /** Hence a join mentions each of its parts. */
  lemma JoinMentions(parts: seq<string>, sep: string, k: nat)
    requires k < |parts|
    ensures Mentions(Join(parts, sep), parts[k])
  {
    JoinContains(parts, sep, k);
    assert OccursAt(Join(parts, sep), parts[k], JoinOffset(parts, sep, k));
  }
}
