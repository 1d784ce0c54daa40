/**
  The bounded memory of connection IDs handed over or retired (`remember_taken_cid`, which
  `Server` and `SharedRoutes` of tokio-ngtcp2/src/server.rs both have).
 */
module TakenCids {
  import opened Resolve

  const MAX_TAKEN_CIDS: nat := 8192

  /** `taken_cids` and `taken_cid_order`. */
  datatype Memory = Memory(cids: set<Cid>, order: seq<Cid>)

  const EMPTY: Memory := Memory({}, [])

  function Insert(m: Memory, cid: Cid): Memory {
    if cid in m.cids then m else Memory(m.cids + {cid}, m.order + [cid])
  }

  function Trim(m: Memory): Memory
    decreases |m.order|
  {
    if |m.order| <= MAX_TAKEN_CIDS then m
    else Trim(Memory(m.cids - {m.order[0]}, m.order[1..]))
  }

  function Remember(m: Memory, cid: Cid): Memory {
    Trim(Insert(m, cid))
  }

  function RememberAll(m: Memory, cids: seq<Cid>): Memory {
    if cids == [] then m else Remember(RememberAll(m, cids[..|cids| - 1]), cids[|cids| - 1])
  }

  method RememberTakenCid(before: Memory, cid: Cid) returns (m: Memory)
    ensures m == Remember(before, cid)
  {
    m := before;
    if cid !in m.cids {
      m := Memory(m.cids + {cid}, m.order + [cid]);
    }
    while |m.order| > MAX_TAKEN_CIDS
      invariant Trim(m) == Remember(before, cid)
      decreases |m.order|
    {
      var oldest := m.order[0];
      m := Memory(m.cids - {oldest}, m.order[1..]);
    }
  }

  /** The insertions of a run that were not already remembered when they happened. */
  function Accepted(m: Memory, cids: seq<Cid>): seq<Cid> {
    if cids == [] then []
    else
      var n := |cids| - 1;
      var earlier := Accepted(m, cids[..n]);
      if cids[n] in RememberAll(m, cids[..n]).cids then earlier else earlier + [cids[n]]
  }

  ghost predicate NoDuplicates(s: seq<Cid>) {
    forall i, j :: 0 <= i < j < |s| ==> s[i] != s[j]
  }

  ghost predicate Consistent(m: Memory) {
    NoDuplicates(m.order) && (forall c :: c in m.cids <==> c in m.order) && |m.order| <= MAX_TAKEN_CIDS
  }

  function Last(s: seq<Cid>, n: nat): seq<Cid> {
    if |s| <= n then s else s[|s| - n..]
  }

  lemma LastOfLast(s: seq<Cid>, cid: Cid, n: nat)
    requires n > 0
    ensures Last(Last(s, n) + [cid], n) == Last(s + [cid], n)
  {
  }

  lemma TrimOne(m: Memory)
    requires |m.order| == MAX_TAKEN_CIDS + 1
    ensures Trim(m) == Memory(m.cids - {m.order[0]}, m.order[1..])
  {
  }

  lemma RememberKeepsConsistent(m: Memory, cid: Cid)
    requires Consistent(m)
    ensures Consistent(Remember(m, cid))
    ensures cid in Remember(m, cid).cids
    ensures Remember(m, cid).order == if cid in m.cids then m.order else Last(m.order + [cid], MAX_TAKEN_CIDS)
  {
    var n := Insert(m, cid);
    if |n.order| > MAX_TAKEN_CIDS {
      TrimOne(n);
      assert n.order[0] !in n.order[1..];
      assert forall c :: c in n.order <==> c == n.order[0] || c in n.order[1..];
    }
  }

  /**
    After any insertions exactly the last 8192 accepted ones are remembered, in order and without
    duplicates, and the set agrees with the queue.
   */
  lemma {:induction false} RemembersLast(cids: seq<Cid>)
    ensures Consistent(RememberAll(EMPTY, cids))
    ensures RememberAll(EMPTY, cids).order == Last(Accepted(EMPTY, cids), MAX_TAKEN_CIDS)
  {
    if cids != [] {
      var n := |cids| - 1;
      RemembersLast(cids[..n]);
      RememberKeepsConsistent(RememberAll(EMPTY, cids[..n]), cids[n]);
      LastOfLast(Accepted(EMPTY, cids[..n]), cids[n], MAX_TAKEN_CIDS);
    }
  }

  lemma {:induction false} TrimOnlyForgets(m: Memory)
    ensures Trim(m).cids <= m.cids
    decreases |m.order|
  {
    if |m.order| > MAX_TAKEN_CIDS {
      TrimOnlyForgets(Memory(m.cids - {m.order[0]}, m.order[1..]));
    }
  }

  /** Only what is inserted comes to be remembered. */
  lemma {:induction false} RememberOnlyAdds(m: Memory, cids: seq<Cid>, c: Cid)
    requires c in RememberAll(m, cids).cids
    ensures c in m.cids || c in cids
  {
    if cids != [] {
      var n := |cids| - 1;
      TrimOnlyForgets(Insert(RememberAll(m, cids[..n]), cids[n]));
      if c in RememberAll(m, cids[..n]).cids {
        RememberOnlyAdds(m, cids[..n], c);
      }
    }
  }

  /** As long as there is room, everything inserted is remembered and nothing is forgotten. */
  lemma {:induction false} RemembersAll(m: Memory, cids: seq<Cid>)
    requires Consistent(m) && |m.order| + |cids| <= MAX_TAKEN_CIDS
    ensures var after := RememberAll(m, cids);
            Consistent(after) && |after.order| <= |m.order| + |cids| && m.cids <= after.cids && forall c :: c in cids ==> c in after.cids
  {
    if cids != [] {
      var n := |cids| - 1;
      RemembersAll(m, cids[..n]);
      RememberKeepsConsistent(RememberAll(m, cids[..n]), cids[n]);
      assert forall c :: c in cids <==> c in cids[..n] || c == cids[n];
    }
  }
}
