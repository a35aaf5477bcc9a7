/** Finding a marker in text that arrives in pieces: which part of a buffer can be let go
    because no marker can begin there, whatever follows. */
module Markers {
  import opened Prelude

  /** `marker` occurs at position `i`. */
  predicate Occurs<T(==)>(all: seq<T>, marker: seq<T>, i: nat) {
    i <= |all| && marker <= all[i..]
  }

  /** Position of the first occurrence of `marker`. */
  function Find<T(==)>(all: seq<T>, marker: seq<T>): (p: Option<nat>)
    ensures p.Some? ==> Occurs(all, marker, p.value) && forall i | 0 <= i < p.value :: !Occurs(all, marker, i)
    ensures p.None? ==> forall i: nat :: !Occurs(all, marker, i)
  {
    if marker <= all then Some(0)
    else if all == [] then None
    else
      assert forall i: nat | i >= 1 :: Occurs(all, marker, i) <==> Occurs(all[1..], marker, i - 1) by {
        OccursLater(all, marker);
      }
      match Find(all[1..], marker)
      case None => None
      case Some(n) => Some(n + 1)
  }

  lemma OccursLater<T>(all: seq<T>, marker: seq<T>)
    requires all != []
    ensures forall i: nat | i >= 1 :: Occurs(all, marker, i) <==> Occurs(all[1..], marker, i - 1)
  {
    forall i: nat | i >= 1
      ensures Occurs(all, marker, i) <==> Occurs(all[1..], marker, i - 1)
    {
      if i <= |all| {
        assert all[i..] == all[1..][i - 1..];
      }
    }
  }

  lemma FindIs<T>(all: seq<T>, marker: seq<T>, p: nat)
    requires Occurs(all, marker, p) && forall i | 0 <= i < p :: !Occurs(all, marker, i)
    ensures Find(all, marker) == Some(p)
  {
    var q := Find(all, marker);
  }

  lemma FindNone<T>(all: seq<T>, marker: seq<T>)
    requires forall i: nat :: !Occurs(all, marker, i)
    ensures Find(all, marker).None?
  {
    var q := Find(all, marker);
  }

  lemma OccursBeyond<T>(a: seq<T>, b: seq<T>, marker: seq<T>, i: nat)
    ensures Occurs(a + b, marker, |a| + i) <==> Occurs(b, marker, i)
  {
    if i <= |b| {
      assert (a + b)[|a| + i..] == b[i..];
    }
  }

  /** An occurrence within the first part does not depend on what follows. */
  lemma OccursWithin<T>(a: seq<T>, b: seq<T>, marker: seq<T>, i: nat)
    requires i + |marker| <= |a|
    ensures Occurs(a + b, marker, i) <==> Occurs(a, marker, i)
  {
    assert (a + b)[i..][..|marker|] == a[i..][..|marker|];
  }

  /** Neither string begins the other: they differ somewhere both have. */
  predicate Differ<T(==)>(a: seq<T>, b: seq<T>) {
    !(a <= b) && !(b <= a)
  }

  lemma DifferStays<T>(a: seq<T>, b: seq<T>, more: seq<T>)
    requires Differ(a, b)
    ensures Differ(a + more, b)
  {
    assert exists i | 0 <= i < |a| && i < |b| :: a[i] != b[i];
    var i :| 0 <= i < |a| && i < |b| && a[i] != b[i];
    assert (a + more)[i] == a[i];
  }

  /** No marker begins within the first `n` elements, now or later. */
  ghost predicate Settled<T(!new)>(all: seq<T>, n: nat, marker: seq<T>) {
    n <= |all| && forall i | 0 <= i < n :: Differ(all[i..], marker)
  }

  lemma SettledStays<T(!new)>(all: seq<T>, n: nat, marker: seq<T>, more: seq<T>)
    requires Settled(all, n, marker)
    ensures Settled(all + more, n, marker)
  {
    forall i | 0 <= i < n
      ensures Differ((all + more)[i..], marker)
    {
      DifferStays(all[i..], marker, more);
      assert (all + more)[i..] == all[i..] + more;
    }
  }

  lemma NoneSettled<T(!new)>(all: seq<T>, n: nat, marker: seq<T>)
    requires Settled(all, n, marker)
    ensures forall i | 0 <= i < n :: !Occurs(all, marker, i)
  {
    forall i | 0 <= i < n
      ensures !Occurs(all, marker, i)
    {
      assert Differ(all[i..], marker);
    }
  }

  /** The first marker of a text whose first part is settled is the first of the rest. */
  lemma FindBeyond<T(!new)>(settled: seq<T>, rest: seq<T>, marker: seq<T>)
    requires Settled(settled + rest, |settled|, marker)
    ensures var p := Find(rest, marker);
      Find(settled + rest, marker) == if p.Some? then Some(|settled| + p.value) else None
  {
    hide Occurs, Settled, Find;
    var all := settled + rest;
    NoneSettled(all, |settled|, marker);
    var p := Find(rest, marker);
    if p.Some? {
      OccursBeyond(settled, rest, marker, p.value);
      forall i | 0 <= i < |settled| + p.value
        ensures !Occurs(all, marker, i)
      {
        if i >= |settled| { OccursBeyond(settled, rest, marker, i - |settled|); }
      }
      FindIs(all, marker, |settled| + p.value);
    } else {
      forall i: nat
        ensures !Occurs(all, marker, i)
      {
        if i >= |settled| { OccursBeyond(settled, rest, marker, i - |settled|); }
      }
      FindNone(all, marker);
    }
  }

  /** A buffer without a marker settles all but a beginning of a marker at its end. */
  lemma BufferSettles<T(!new)>(buffer: seq<T>, safe: nat, marker: seq<T>)
    requires Find(buffer, marker).None? && safe <= |buffer|
    requires forall i | 0 <= i < safe :: !(buffer[i..] <= marker)
    ensures Settled(buffer, safe, marker)
  {
    forall i | 0 <= i < safe
      ensures Differ(buffer[i..], marker)
    {
      assert !Occurs(buffer, marker, i);
    }
  }

  /** Settling goes on in the rest. */
  lemma SettledFurther<T(!new)>(settled: seq<T>, rest: seq<T>, n: nat, marker: seq<T>)
    requires Settled(settled + rest, |settled|, marker) && Settled(rest, n, marker)
    ensures Settled(settled + rest, |settled| + n, marker)
  {
    var all := settled + rest;
    forall i | 0 <= i < |settled| + n
      ensures Differ(all[i..], marker)
    {
      if i >= |settled| {
        assert all[i..] == rest[i - |settled|..];
      }
    }
  }

  function Concat<T>(chunks: seq<seq<T>>): seq<T> {
    if chunks == [] then [] else chunks[0] + Concat(chunks[1..])
  }

  /** A marker found in what has arrived is the first of the whole. */
  lemma FoundEarly<T>(now: seq<T>, later: seq<T>, marker: seq<T>)
    requires Find(now, marker).Some?
    ensures var e := Find(now, marker).value;
      && e + |marker| <= |now|
      && Find(now + later, marker) == Some(e)
      && (now + later)[..e] == now[..e]
      && (now + later)[e + |marker|..] == now[e + |marker|..] + later
  {
    var e := Find(now, marker).value;
    assert e + |marker| <= |now|;
    hide Occurs, Find;
    forall i | 0 <= i <= e
      ensures Occurs(now + later, marker, i) <==> Occurs(now, marker, i)
    {
      OccursWithin(now, later, marker, i);
    }
    FindIs(now + later, marker, e);
  }

  /** Cutting at a marker behind a settled part. */
  lemma FoundWithin<T>(taken: seq<T>, buffer: seq<T>, marker: seq<T>)
    requires Find(buffer, marker).Some?
    ensures var e := Find(buffer, marker).value;
      && e + |marker| <= |buffer|
      && (taken + buffer)[..|taken| + e] == taken + buffer[..e]
      && (taken + buffer)[|taken| + e + |marker|..] == buffer[e..][|marker|..]
  {
    var e := Find(buffer, marker).value;
    assert Occurs(buffer, marker, e);
  }
}
