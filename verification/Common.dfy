/** Small helpers shared by every module of the model. */
module Common {

  /** The source's `Option`. */
  datatype Option<+T> = None | Some(value: T)

  /** The source's `Result`; errors carry a value of the module's own error type. */
  datatype Result<+T, +E> = Success(value: T) | Failure(error: E)

  type byte = x: int | 0 <= x < 256

  function Min(a: int, b: int): int { if a < b then a else b }

  function Max(a: int, b: int): int { if a < b then b else a }

  /** The elements of `s` that satisfy `keep`, in order. */
  function Select<T(!new)>(s: seq<T>, keep: T -> bool): (r: seq<T>)
    ensures forall x :: x in r <==> x in s && keep(x)
    ensures |r| <= |s|
  {
    if s == [] then [] else (if keep(s[0]) then [s[0]] else []) + Select(s[1..], keep)
  }

  lemma {:induction false} SelectSplits<T(!new)>(s: seq<T>, keep: T -> bool, drop: T -> bool)
    requires forall x :: x in s ==> keep(x) != drop(x)
    ensures |Select(s, keep)| + |Select(s, drop)| == |s|
  {
    if s != [] {
      SelectSplits(s[1..], keep, drop);
    }
  }

  lemma {:induction false} SelectAppend<T(!new)>(a: seq<T>, b: seq<T>, keep: T -> bool)
    ensures Select(a + b, keep) == Select(a, keep) + Select(b, keep)
  {
    if a == [] {
      assert a + b == b;
    } else {
      assert (a + b)[1..] == a[1..] + b;
      SelectAppend(a[1..], b, keep);
    }
  }

  lemma {:induction false} SelectAll<T(!new)>(s: seq<T>, keep: T -> bool)
    requires forall x :: x in s ==> keep(x)
    ensures Select(s, keep) == s
  {
    if s != [] {
      SelectAll(s[1..], keep);
    }
  }

  lemma {:induction false} SelectNone<T(!new)>(s: seq<T>, keep: T -> bool)
    requires forall x :: x in s ==> !keep(x)
    ensures Select(s, keep) == []
  {
    if s != [] {
      SelectNone(s[1..], keep);
    }
  }

  lemma HeadOfAppend<T>(a: seq<T>, b: seq<T>)
    requires a != []
    ensures (a + b)[0] == a[0] && (a + b)[1..] == a[1..] + b
  {
  }

  lemma AppendAssociates<T>(a: seq<T>, b: seq<T>, c: seq<T>)
    ensures a + b + c == a + (b + c)
  {
  }

  /** ceil(n / m): the number of pieces of at most m that n takes. */
  function CeilDiv(n: nat, m: nat): nat
    requires m > 0
  {
    if n == 0 then 0 else 1 + CeilDiv(n - Min(n, m), m)
  }

  /** It is the rounded-up quotient. */
  lemma {:induction false} CeilDivIsCeiling(n: nat, m: nat)
    requires m > 0
    ensures n <= m * CeilDiv(n, m) < n + m
  {
    if n > m {
      CeilDivIsCeiling(n - m, m);
      assert m * CeilDiv(n, m) == m * CeilDiv(n - m, m) + m;
    } else if n > 0 {
      assert CeilDiv(n, m) == 1 + CeilDiv(0, m) == 1;
    }
  }
}
