/** The commit graph as the commits folder holds it: walks along parent links
    (`log`, and the two walks of `getSplitPoint` in Main.java) and the split
    point those walks select. */
module History {
  import opened Base
  import opened Commits

  /** The commits folder: commit id to persisted record. */
  type Store = map<string, Snapshot>

  /** The parent the split-point search follows from `c`: the second parent
      when there is one, otherwise the first. */
  function Next(c: Snapshot): Option<string> {
    if c.prev2.Some? then c.prev2 else c.prev
  }

  /** The record stored under `id` is filed under its own id, its parents are
      stored with a smaller rank, and only a commit with a first parent has a
      second one. */
  ghost predicate Linked(store: Store, rank: map<string, nat>, id: string)
    requires id in store
  {
    var c := store[id];
    && id in rank
    && c.id == id
    && (c.prev.Some? ==> c.prev.value in store && c.prev.value in rank && rank[c.prev.value] < rank[id])
    && (c.prev2.Some? ==>
          c.prev.Some? && c.prev2.value in store && c.prev2.value in rank && rank[c.prev2.value] < rank[id])
  }

  /** Every parent link points at a stored commit of smaller rank, so every
      walk along parent links ends. */
  ghost predicate Ranked(store: Store, rank: map<string, nat>) {
    forall id {:trigger Linked(store, rank, id)} | id in store :: Linked(store, rank, id)
  }

  /** `root`, the commit `init` made, is the only stored commit without a parent. */
  ghost predicate Rooted(store: Store, root: string) {
    && root in store
    && store[root].prev.None?
    && forall id | id in store && store[id].prev.None? :: id == root
  }

  ghost predicate Graph(store: Store, rank: map<string, nat>, root: string) {
    Ranked(store, rank) && Rooted(store, root)
  }

  /** The store `init` creates: one parentless commit, the root. */
  lemma GraphInit(s: Snapshot)
    requires s.prev.None? && s.prev2.None?
    ensures Graph(map[s.id := s], map[s.id := 0], s.id)
  {
    assert Linked(map[s.id := s], map[s.id := 0], s.id);
  }

  /** Filing a new commit whose parents are stored, under an id not yet
      used, keeps the graph ranked and rooted at the same commit. */
  lemma GraphExtend(store: Store, rank: map<string, nat>, root: string, s: Snapshot, r: nat)
    requires Graph(store, rank, root) && s.id !in store
    requires s.prev.Some? && s.prev.value in store && s.prev.value in rank && rank[s.prev.value] < r
    requires s.prev2.Some? ==> s.prev2.value in store && s.prev2.value in rank && rank[s.prev2.value] < r
    ensures Graph(store[s.id := s], rank[s.id := r], root)
  {
    var store', rank' := store[s.id := s], rank[s.id := r];
    forall id | id in store'
      ensures Linked(store', rank', id)
    {
      if id != s.id {
        assert Linked(store, rank, id);
      }
    }
  }

  /** The ids the split-point search visits from `id`, preferring the second
      parent at every step, down to a commit with no parent. */
  ghost function Ancestors(store: Store, rank: map<string, nat>, id: string): (h: seq<string>)
    requires Ranked(store, rank) && id in store
    ensures |h| > 0 && h[0] == id
    ensures forall i | 0 <= i < |h| :: h[i] in store && h[i] in rank
    ensures forall i, j | 0 <= i < j < |h| :: rank[h[j]] < rank[h[i]]
    ensures forall i | 0 <= i < |h| - 1 :: Next(store[h[i]]) == Some(h[i + 1])
    ensures Next(store[h[|h| - 1]]).None?
    decreases rank[id]
  {
    assert Linked(store, rank, id);
    match Next(store[id])
    case None => [id]
    case Some(p) => [id] + Ancestors(store, rank, p)
  }

  /** The ids `log` visits from `id`, following first parents only. */
  ghost function LogChain(store: Store, rank: map<string, nat>, id: string): (h: seq<string>)
    requires Ranked(store, rank) && id in store
    ensures |h| > 0 && h[0] == id
    ensures forall i | 0 <= i < |h| :: h[i] in store && h[i] in rank
    ensures forall i, j | 0 <= i < j < |h| :: rank[h[j]] < rank[h[i]]
    ensures forall i | 0 <= i < |h| - 1 :: store[h[i]].prev == Some(h[i + 1])
    ensures store[h[|h| - 1]].prev.None?
    decreases rank[id]
  {
    assert Linked(store, rank, id);
    match store[id].prev
    case None => [id]
    case Some(p) => [id] + LogChain(store, rank, p)
  }

  /** One step of each walk: the record filed under a parent's id carries
      that id, and the walk from `id` is `id` followed by the walk from its
      parent. */
  lemma WalkStep(store: Store, rank: map<string, nat>, id: string)
    requires Ranked(store, rank) && id in store
    ensures id in rank && store[id].id == id
    ensures match store[id].prev
            case None => LogChain(store, rank, id) == [id]
            case Some(p) => p in store && store[p].id == p && p in rank && rank[p] < rank[id] && LogChain(store, rank, id) == [id] + LogChain(store, rank, p)
    ensures match Next(store[id])
            case None => Ancestors(store, rank, id) == [id]
            case Some(p) => p in store && store[p].id == p && p in rank && rank[p] < rank[id] && Ancestors(store, rank, id) == [id] + Ancestors(store, rank, p)
  {
    assert Linked(store, rank, id);
    if store[id].prev.Some? {
      assert Linked(store, rank, store[id].prev.value);
    }
    if store[id].prev2.Some? {
      assert Linked(store, rank, store[id].prev2.value);
    }
  }

  /** Filing a new commit does not change the walk from a commit already
      stored. */
  lemma {:induction false} LogChainStable(store: Store, rank: map<string, nat>, s: Snapshot, r: nat, id: string)
    requires Ranked(store, rank) && s.id !in store
    requires Ranked(store[s.id := s], rank[s.id := r])
    requires id in store
    ensures LogChain(store[s.id := s], rank[s.id := r], id) == LogChain(store, rank, id)
    decreases |LogChain(store, rank, id)|
  {
    WalkStep(store, rank, id);
    WalkStep(store[s.id := s], rank[s.id := r], id);
    match store[id].prev
    case None =>
    case Some(p) => LogChainStable(store, rank, s, r, p);
  }

  /** After a commit, `log` prints the new commit followed by what it
      printed from the old head. */
  lemma LogAfterCommit(store: Store, rank: map<string, nat>, s: Snapshot, r: nat)
    requires Ranked(store, rank) && s.id !in store
    requires Ranked(store[s.id := s], rank[s.id := r])
    requires s.prev.Some? && s.prev.value in store
    ensures LogChain(store[s.id := s], rank[s.id := r], s.id) == [s.id] + LogChain(store, rank, s.prev.value)
  {
    WalkStep(store[s.id := s], rank[s.id := r], s.id);
    LogChainStable(store, rank, s, r, s.prev.value);
  }

  /** Both walks end at the root. */
  lemma {:induction false} ReachesRoot(store: Store, rank: map<string, nat>, root: string, id: string)
    requires Graph(store, rank, root) && id in store
    ensures var h := Ancestors(store, rank, id); h[|h| - 1] == root
    ensures var h := LogChain(store, rank, id); h[|h| - 1] == root
  {
    var h := Ancestors(store, rank, id);
    var last := h[|h| - 1];
    assert Linked(store, rank, last);
    var l := LogChain(store, rank, id);
    assert Linked(store, rank, l[|l| - 1]);
  }

  /** `log` prints every commit of its walk exactly once. */
  lemma LogVisitsOnce(store: Store, rank: map<string, nat>, id: string, i: nat, j: nat)
    requires Ranked(store, rank) && id in store
    requires i < j < |LogChain(store, rank, id)|
    ensures LogChain(store, rank, id)[i] != LogChain(store, rank, id)[j]
  {
  }

  /** The index of the first element of `xs` that also occurs in `ys`. */
  function FirstIndex(xs: seq<string>, ys: seq<string>): (i: nat)
    requires exists j | 0 <= j < |xs| :: xs[j] in ys
    ensures i < |xs| && xs[i] in ys
    ensures forall j | 0 <= j < i :: xs[j] !in ys
  {
    if xs[0] in ys then 0
    else
      var j :| 0 <= j < |xs| && xs[j] in ys;
      assert xs[1..][j - 1] == xs[j];
      1 + FirstIndex(xs[1..], ys)
  }

  /** `getSplitPoint`: the first commit of the other tip's walk that also
      lies on the head's walk. It exists because both walks end at the root. */
  ghost function SplitPoint(store: Store, rank: map<string, nat>, root: string,
                            headId: string, otherId: string): (sp: string)
    requires Graph(store, rank, root) && headId in store && otherId in store
    ensures sp in Ancestors(store, rank, headId)
    ensures var os := Ancestors(store, rank, otherId);
            exists i | 0 <= i < |os| :: os[i] == sp && forall j | 0 <= j < i :: os[j] !in Ancestors(store, rank, headId)
  {
    var hs := Ancestors(store, rank, headId);
    var os := Ancestors(store, rank, otherId);
    ReachesRoot(store, rank, root, headId);
    ReachesRoot(store, rank, root, otherId);
    assert os[|os| - 1] in hs;
    os[FirstIndex(os, hs)]
  }

  /** `FirstIndex` is the one index holding the first match. */
  lemma FirstIndexIs(xs: seq<string>, ys: seq<string>, k: nat)
    requires k < |xs| && xs[k] in ys
    requires forall j | 0 <= j < k :: xs[j] !in ys
    ensures FirstIndex(xs, ys) == k
  {
  }

  /** The split point is the element of the other tip's walk at the first
      index where that walk meets the head's walk. */
  lemma SplitPointAt(store: Store, rank: map<string, nat>, root: string,
                     headId: string, otherId: string, i: nat)
    requires Graph(store, rank, root) && headId in store && otherId in store
    requires i < |Ancestors(store, rank, otherId)|
    requires Ancestors(store, rank, otherId)[i] in Ancestors(store, rank, headId)
    requires forall j | 0 <= j < i :: Ancestors(store, rank, otherId)[j] !in Ancestors(store, rank, headId)
    ensures SplitPoint(store, rank, root, headId, otherId) == Ancestors(store, rank, otherId)[i]
  {
    FirstIndexIs(Ancestors(store, rank, otherId), Ancestors(store, rank, headId), i);
  }

  /** When the other tip is on the head's walk, it is its own split point:
      the merge is refused as "an ancestor of the current branch". */
  lemma AncestorSplit(store: Store, rank: map<string, nat>, root: string, headId: string, otherId: string)
    requires Graph(store, rank, root) && headId in store && otherId in store
    requires otherId in Ancestors(store, rank, headId)
    ensures SplitPoint(store, rank, root, headId, otherId) == otherId
  {
  }

  /** When the head is on the other tip's walk, the head is the split point:
      the fast-forward case. Everything before the head on that walk has a
      larger rank than every commit of the head's own walk. */
  lemma {:induction false} FastForwardSplit(store: Store, rank: map<string, nat>, root: string,
                                            headId: string, otherId: string)
    requires Graph(store, rank, root) && headId in store && otherId in store
    requires headId in Ancestors(store, rank, otherId)
    ensures SplitPoint(store, rank, root, headId, otherId) == headId
  {
    var hs := Ancestors(store, rank, headId);
    var os := Ancestors(store, rank, otherId);
    var k :| 0 <= k < |os| && os[k] == headId;
    forall m | 0 <= m < |hs|
      ensures rank[hs[m]] <= rank[headId]
    {
      if m > 0 { assert rank[hs[m]] < rank[hs[0]]; }
    }
    forall j | 0 <= j < k
      ensures os[j] !in hs
    {
      assert rank[os[k]] < rank[os[j]];
    }
    assert hs[0] == headId;
    FirstIndexIs(os, hs, k);
    ReachesRoot(store, rank, root, headId);
    ReachesRoot(store, rank, root, otherId);
  }
}
