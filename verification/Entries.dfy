/** Queue entries and the per-series view of a log of entries (stackdriver/queue_manager.go). */
module Entries {
  import opened Common

  /** A sample together with the hash of its series. `sample` stands for the payload. */
  datatype Entry = Entry(hash: nat, sample: int)

  /** The entries of one series, in order. */
  function Proj(s: seq<Entry>, h: nat): seq<Entry> {
    if s == [] then []
    else (if s[0].hash == h then [s[0]] else []) + Proj(s[1..], h)
  }

  function Hashes(s: seq<Entry>): set<nat> {
    set e <- s :: e.hash
  }

  ghost predicate DistinctHashes(s: seq<Entry>) {
    forall i, j :: 0 <= i < j < |s| ==> s[i].hash != s[j].hash
  }

  lemma {:induction false} ProjConcat(a: seq<Entry>, b: seq<Entry>, h: nat)
    ensures Proj(a + b, h) == Proj(a, h) + Proj(b, h)
  {
    if a == [] {
      assert a + b == b;
    } else {
      var first, rest := if a[0].hash == h then [a[0]] else [], a[1..];
      assert (a + b)[0] == a[0] && (a + b)[1..] == rest + b;
      ProjConcat(rest, b, h);
      Assoc(first, Proj(rest, h), Proj(b, h));
    }
  }

  lemma {:induction false} ProjNone(s: seq<Entry>, h: nat)
    requires forall e <- s :: e.hash != h
    ensures Proj(s, h) == []
  {
    if s != [] {
      ProjNone(s[1..], h);
    }
  }

  lemma {:induction false} ProjCount(s: seq<Entry>, e: Entry)
    ensures multiset(s)[e] == multiset(Proj(s, e.hash))[e]
  {
    if s != [] {
      assert s == [s[0]] + s[1..];
      ProjCount(s[1..], e);
    }
  }

  lemma HashesSnoc(s: seq<Entry>, e: Entry)
    ensures Hashes(s + [e]) == Hashes(s) + {e.hash}
  {
    assert forall x :: x in s + [e] <==> x in s || x == e;
  }
}
