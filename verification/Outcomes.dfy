/** Shared vocabulary: optional values, results, and the widths of the on-chain integers. */
module Outcomes {
  datatype Option<+T> = None | Some(value: T)

  datatype Result<+T, +E> = Ok(value: T) | Err(error: E)

  const U32_MAX: nat := 0xFFFF_FFFF
  const U64_MAX: nat := 0xFFFF_FFFF_FFFF_FFFF
  const I128_MAX: nat := 0x7FFF_FFFF_FFFF_FFFF_FFFF_FFFF_FFFF_FFFF

  /** A non-negative i128 that a checked operation on non-negative operands produced. */
  predicate Fits(x: int) {
    x <= I128_MAX
  }

  /** The widths as powers of two, and where clipping begins. */
  lemma Widths()
    ensures U32_MAX + 1 == 65_536 * 65_536 && U64_MAX + 1 == (U32_MAX + 1) * (U32_MAX + 1)
    ensures 2 * (I128_MAX + 1) == (U64_MAX + 1) * (U64_MAX + 1)
    ensures forall x :: Fits(x) <==> x < 0x8000_0000_0000_0000_0000_0000_0000_0000
    ensures forall x :: Saturate(x) == if x < 0x8000_0000_0000_0000_0000_0000_0000_0000 then x
                                       else 0x7FFF_FFFF_FFFF_FFFF_FFFF_FFFF_FFFF_FFFF
  {
  }

  /** What `checked_op(..).unwrap_or(i128::MAX)` yields for non-negative operands. */
  function Saturate(x: int): (r: int)
    ensures r <= x && Fits(r) && (Fits(x) ==> r == x)
  {
    if Fits(x) then x else I128_MAX
  }

  function SaturatingDecrement(n: nat): nat {
    if n > 0 then n - 1 else 0
  }

  function Min(a: int, b: int): (r: int)
    ensures r <= a && r <= b && (r == a || r == b)
  {
    if a <= b then a else b
  }
}

/** Duplicate-free registration lists kept as vectors. */
module Registries {
  ghost predicate Distinct<T(!new)>(s: seq<T>) {
    forall i, j :: 0 <= i < j < |s| ==> s[i] != s[j]
  }

  /** s without the first occurrence of x. */
  function RemoveFirst<T(==)>(s: seq<T>, x: T): seq<T> {
    if s == [] then [] else if s[0] == x then s[1..] else [s[0]] + RemoveFirst(s[1..], x)
  }

  lemma {:induction false} RemoveFirstAt<T>(s: seq<T>, x: T, i: nat)
    requires i < |s| && s[i] == x && x !in s[..i]
    ensures RemoveFirst(s, x) == s[..i] + s[i + 1..]
  {
    if i > 0 {
      assert s[1..][..i - 1] == s[..i][1..];
      RemoveFirstAt(s[1..], x, i - 1);
      assert s[0] in s[..i];
      assert s[1..][i - 1 + 1..] == s[i + 1..];
    }
  }

  /** Removing an absent element changes nothing. */
  lemma {:induction false} RemoveFirstAbsent<T>(s: seq<T>, x: T)
    requires x !in s
    ensures RemoveFirst(s, x) == s
  {
    if s != [] { RemoveFirstAbsent(s[1..], x); }
  }

  /** On a duplicate-free list removal takes out exactly x and keeps the list duplicate-free. */
  lemma {:induction false} RemoveFirstDistinct<T(!new)>(s: seq<T>, x: T)
    requires Distinct(s)
    ensures Distinct(RemoveFirst(s, x)) && |RemoveFirst(s, x)| <= |s|
    ensures forall y :: y in RemoveFirst(s, x) <==> y in s && y != x
  {
    if x in s {
      var i :| 0 <= i < |s| && s[i] == x;
      RemoveFirstAt(s, x, i);
      forall y ensures y in RemoveFirst(s, x) <==> y in s && y != x {
        if y in s && y != x {
          var k :| 0 <= k < |s| && s[k] == y;
          assert y == if k < i then (s[..i] + s[i + 1..])[k] else (s[..i] + s[i + 1..])[k - 1];
        }
      }
    } else {
      RemoveFirstAbsent(s, x);
    }
  }
}
