// Shared by every component: an optional value, and text edited by byte offset.

module Prelude {

  newtype byte = x: int | 0 <= x < 256

  datatype Option<+T> = None | Some(value: T)

  /** `s` with `t` put in at `at`. */
  function Ins(s: string, at: nat, t: string): string
    requires at <= |s|
  {
    s[..at] + t + s[at..]
  }

  /** `s` without the `n` characters at `at`. */
  function Del(s: string, at: nat, n: nat): string
    requires at + n <= |s|
  {
    s[..at] + s[at + n..]
  }

  /** `s` without its element at `k`. */
  function Without<T>(s: seq<T>, k: nat): (r: seq<T>)
    requires k < |s|
    ensures |r| == |s| - 1
  {
    s[..k] + s[k + 1..]
  }

  lemma {:induction false} WithoutMembers<T>(s: seq<T>, k: nat)
    requires k < |s|
    ensures forall x :: x in s ==> x == s[k] || x in Without(s, k)
    ensures forall x :: x in Without(s, k) ==> x in s
  {
  }

  lemma {:induction false} WithoutAround<T>(s: seq<T>, k: nat)
    requires k < |s|
    ensures k > 0 ==> Without(s, k)[k - 1] == s[k - 1]
    ensures k < |s| - 1 ==> Without(s, k)[k] == s[k + 1]
  {
  }

  lemma {:induction false} MoveFirst<T>(a: seq<T>, b: seq<T>)
    requires b != []
    ensures a + [b[0]] + b[1..] == a + b
  {
  }

  lemma {:induction false} AppendNone<T>(a: seq<T>)
    ensures a + [] == a && [] + a == a
  {
  }

  lemma {:induction false} DivisionOf(a: nat, q: int, r: int)
    requires 0 <= r < a
    ensures (a * q + r) % a == r
  {
    var x := a * q + r;
    var d := x / a - q;
    assert x == a * (x / a) + x % a;
    assert a * d == r - x % a;
    if d >= 1 {
      MulAtLeast(a, d);
    } else if d <= -1 {
      MulAtLeast(a, -d);
    }
  }

  lemma {:induction false} MulAtLeast(a: nat, d: int)
    requires d >= 1
    ensures a * d >= a
  {
    assert a * d == a + a * (d - 1);
  }

  lemma {:induction false} Regroup<T>(a: seq<T>, b: seq<T>, c: seq<T>)
    ensures a + b + c == a + (b + c)
  {
  }

  /** Five parts in a row, with something behind them. */
  lemma {:induction false} FiveParts<T>(a: seq<T>, b: seq<T>, c: seq<T>, d: seq<T>, e: seq<T>, x: seq<T>)
    ensures a + (b + (c + (d + e))) + x == a + (b + (c + (d + (e + x))))
  {
    Regroup(d, e, x);
    Regroup(c, d + e, x);
    Regroup(b, c + (d + e), x);
    Regroup(a, b + (c + (d + e)), x);
  }

  /** Lines as one text: each is followed by its newline. */
  function Flatten(ls: seq<string>): string {
    if ls == [] then "" else ls[0] + "\n" + Flatten(ls[1..])
  }

  /** The pieces of a stream put together. */
  function Concat(chunks: seq<string>): string
    decreases chunks
  {
    if chunks == [] then "" else Concat(chunks[..|chunks| - 1]) + chunks[|chunks| - 1]
  }
}
