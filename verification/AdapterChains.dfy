/** The statistical adapters: one list for each source directory, found by the
    number of the adapter at its head. */
module AdapterChains {
  import opened Counting
  import opened LinkedLists

  /** What a configuration row says of an adapter, the parts that matter here. */
  datatype Adapter = Adapter(id: nat, dir: string)

  const IDS: int := 0x1_0000

  /** A row's number as an unsigned short. */
  function Row(number: int, dir: string): (a: Adapter)
    ensures a.dir == dir && a.id < IDS && (number - a.id) % IDS == 0
  {
    Adapter(number % IDS, dir)
  }

  type Chains = map<int, seq<Adapter>>

  predicate Heads(c: seq<Adapter>, dir: string) {
    c != [] && c[0].dir == dir
  }

  ghost predicate Served(m: Chains, dir: string) {
    exists k | k in m :: Heads(m[k], dir)
  }

  /** The new adapter goes right behind the head. */
  function Behind(c: seq<Adapter>, a: Adapter): seq<Adapter>
    requires c != []
  {
    [c[0], a] + c[1..]
  }

  ghost function Added(m: Chains, a: Adapter): Chains {
    if a.id in m then m
    else if Served(m, a.dir) then
      var k :| k in m && Heads(m[k], a.dir);
      m[k := Behind(m[k], a)]
    else m[a.id := [a]]
  }

  // ---- which adapter is where ----

  /** The adapters made of rows, in the order they were made. */
  ghost function Made(m: Chains, made: seq<Adapter>, a: Adapter): seq<Adapter> {
    if a.id in m then made else made + [a]
  }

  ghost function OfDir(made: seq<Adapter>, dir: string): seq<Adapter> {
    if made == [] then []
    else
      var before := OfDir(made[..|made| - 1], dir);
      var last := made[|made| - 1];
      if last.dir == dir then before + [last] else before
  }

  /** The first one leads; the others follow it, the newest first. */
  ghost function Arranged(c: seq<Adapter>): seq<Adapter> {
    if |c| <= 1 then c else Behind(Arranged(c[..|c| - 1]), c[|c| - 1])
  }

  /** A chain holds exactly the adapters of its directory, under the number of
      the first of them. */
  ghost predicate Complete(m: Chains, made: seq<Adapter>) {
    forall k | k in m :: m[k] != [] && m[k][0].id == k && m[k] == Arranged(OfDir(made, m[k][0].dir))
  }

  ghost predicate DirsDiffer(m: Chains) {
    forall j, k | j in m && k in m && j != k && m[j] != [] && m[k] != [] :: m[j][0].dir != m[k][0].dir
  }

  ghost predicate AllServed(m: Chains, made: seq<Adapter>) {
    forall dir | OfDir(made, dir) != [] :: Served(m, dir)
  }

  /** Each directory that has adapters has one chain, with all of them in it. */
  ghost predicate ChainsInv(m: Chains, made: seq<Adapter>) {
    Complete(m, made) && DirsDiffer(m) && AllServed(m, made)
  }

  lemma OfDirAppend(made: seq<Adapter>, a: Adapter, dir: string)
    ensures OfDir(made + [a], dir) == if a.dir == dir then OfDir(made, dir) + [a] else OfDir(made, dir)
  {
  }

  lemma {:induction false} ArrangedHead(c: seq<Adapter>)
    ensures |Arranged(c)| == |c| && (c != [] ==> Arranged(c)[0] == c[0])
    decreases |c|
  {
    if |c| > 1 {
      ArrangedHead(c[..|c| - 1]);
    }
  }

  /** Adapter i of n is the i-th from the end, behind the first. */
  lemma {:induction false} NewestFirst(c: seq<Adapter>, i: nat)
    requires 0 < i < |c|
    ensures |Arranged(c)| == |c| && Arranged(c)[i] == c[|c| - i]
    decreases |c|
  {
    var before := c[..|c| - 1];
    ArrangedHead(c);
    ArrangedHead(before);
    if i > 1 {
      NewestFirst(before, i - 1);
    }
  }

  lemma {:induction false} OfDirAll(made: seq<Adapter>, dir: string)
    ensures forall a | a in OfDir(made, dir) :: a.dir == dir && a in made
    decreases |made|
  {
    if made != [] {
      OfDirAll(made[..|made| - 1], dir);
    }
  }

  lemma JoinCompletes(m: Chains, made: seq<Adapter>, a: Adapter, k: int)
    requires Complete(m, made) && DirsDiffer(m) && k in m && Heads(m[k], a.dir)
    ensures Complete(m[k := Behind(m[k], a)], made + [a])
  {
  }

  /** A row for a directory that is served joins the directory's chain. */
  lemma JoinKeeps(m: Chains, made: seq<Adapter>, a: Adapter, k: int)
    requires ChainsInv(m, made) && k in m && Heads(m[k], a.dir)
    ensures ChainsInv(m[k := Behind(m[k], a)], made + [a])
  {
    var m': Chains := m[k := Behind(m[k], a)];
    JoinCompletes(m, made, a, k);
    forall dir | OfDir(made + [a], dir) != [] ensures Served(m', dir) {
      OfDirAppend(made, a, dir);
      ServedStill(m, m', dir, k, a);
    }
  }

  lemma ServedStill(m: Chains, m': Chains, dir: string, k: int, a: Adapter)
    requires k in m && Heads(m[k], a.dir) && m' == m[k := Behind(m[k], a)]
    requires Served(m, dir) || dir == a.dir
    ensures Served(m', dir)
  {
    var j :| j in m && Heads(m[j], dir);
    assert Heads(m'[j], dir);
  }

  lemma NotServed(m: Chains, made: seq<Adapter>, dir: string)
    requires Complete(m, made) && AllServed(m, made) && !Served(m, dir)
    ensures OfDir(made, dir) == [] && forall k | k in m :: m[k] != [] && m[k][0].dir != dir
  {
  }

  lemma StartServes(m: Chains, made: seq<Adapter>, a: Adapter)
    requires AllServed(m, made) && a.id !in m
    ensures AllServed(m[a.id := [a]], made + [a])
  {
    var m': Chains := m[a.id := [a]];
    forall dir | OfDir(made + [a], dir) != [] ensures Served(m', dir) {
      OfDirAppend(made, a, dir);
      if dir == a.dir {
        assert Heads(m'[a.id], dir);
      } else {
        var k :| k in m && Heads(m[k], dir);
        assert Heads(m'[k], dir);
      }
    }
  }

  lemma StartCompletes(m: Chains, made: seq<Adapter>, a: Adapter)
    requires Complete(m, made) && OfDir(made, a.dir) == []
    requires forall k | k in m :: m[k] != [] && m[k][0].dir != a.dir
    ensures Complete(m[a.id := [a]], made + [a])
  {
  }

  /** A row for a new directory starts its chain. */
  lemma StartKeeps(m: Chains, made: seq<Adapter>, a: Adapter)
    requires ChainsInv(m, made) && a.id !in m && !Served(m, a.dir)
    ensures ChainsInv(m[a.id := [a]], made + [a])
  {
    NotServed(m, made, a.dir);
    StartCompletes(m, made, a);
    StartServes(m, made, a);
  }

  lemma AddedKeeps(m: Chains, made: seq<Adapter>, a: Adapter)
    requires ChainsInv(m, made)
    ensures ChainsInv(Added(m, a), Made(m, made, a))
  {
    if a.id !in m {
      if Served(m, a.dir) {
        var k :| k in m && Heads(m[k], a.dir) && Added(m, a) == m[k := Behind(m[k], a)];
        JoinKeeps(m, made, a, k);
      } else {
        StartKeeps(m, made, a);
      }
    }
  }

  ghost function AllAdded(m: Chains, rows: seq<Adapter>): Chains
    decreases |rows|
  {
    if rows == [] then m else AllAdded(Added(m, rows[0]), rows[1..])
  }

  ghost function AllMade(m: Chains, made: seq<Adapter>, rows: seq<Adapter>): seq<Adapter>
    decreases |rows|
  {
    if rows == [] then made else AllMade(Added(m, rows[0]), Made(m, made, rows[0]), rows[1..])
  }

  /** Whatever rows are read, in whatever order. */
  lemma {:induction false} RowsKeepChains(m: Chains, made: seq<Adapter>, rows: seq<Adapter>)
    requires ChainsInv(m, made)
    ensures ChainsInv(AllAdded(m, rows), AllMade(m, made, rows))
    decreases |rows|
  {
    if rows != [] {
      AddedKeeps(m, made, rows[0]);
      RowsKeepChains(Added(m, rows[0]), Made(m, made, rows[0]), rows[1..]);
    }
  }

  /** A row is skipped exactly when an adapter with its number leads a chain;
      one whose number belongs to an adapter further back is taken again. */
  lemma SkippedIff(m: Chains, made: seq<Adapter>, a: Adapter)
    requires ChainsInv(m, made)
    ensures Made(m, made, a) == made <==> exists k | k in m :: m[k][0].id == a.id
  {
  }

  /** So the row of an adapter that joins a chain makes a second adapter when it
      is read again. */
  lemma RowTakenTwice(m: Chains, made: seq<Adapter>, a: Adapter)
    requires ChainsInv(m, made) && a.id !in m && Served(m, a.dir)
    ensures Made(Added(m, a), Made(m, made, a), a) == made + [a] + [a]
    ensures Served(Added(m, a), a.dir)
  {
    var k :| k in m && Heads(m[k], a.dir) && Added(m, a) == m[k := Behind(m[k], a)];
    assert Heads(Added(m, a)[k], a.dir);
  }

  // ---- the adapters ----

  class StatisticalAdapterThread {
    var m_salist: map<int, Node<Adapter>>

    ghost var chains: Chains
    ghost var made: seq<Adapter>
    ghost var lists: map<int, seq<Node<Adapter>>>
    ghost var owner: map<Node<Adapter>, int>

    ghost predicate Entry(k: int)
      reads `m_salist, `lists, `chains, `owner, owner.Keys
    {
      && k in m_salist && k in lists && k in chains
      && Owned(lists[k], owner, k)
      && Holds(m_salist[k], lists[k], chains[k])
    }

    /** Every adapter that was made, and was not deleted, is in one chain. */
    ghost predicate Kept(n: Node<Adapter>)
      requires n in owner
      reads `m_salist, `lists, `owner
    {
      owner[n] in lists && n in lists[owner[n]] && owner[n] in m_salist
    }

    ghost predicate Valid()
      reads this, owner.Keys
    {
      && ChainsInv(chains, made) && chains.Keys == m_salist.Keys
      && (forall k | k in m_salist :: 0 <= k < IDS && Entry(k))
      && (forall n | n in owner :: Kept(n))
    }

    constructor ()
      ensures Valid() && made == [] && owner == map[]
    {
      m_salist, chains, made, lists, owner := map[], map[], [], map[], map[];
    }

    /** The search through the heads, in the order of their numbers. */
    method FindDir(dir: string) returns (found: bool, k: int)
      requires Valid()
      ensures found ==> k in m_salist && Heads(chains[k], dir)
      ensures !found ==> !Served(chains, dir)
    {
      found, k := false, 0;
      while k < IDS
        invariant 0 <= k <= IDS
        invariant forall j | j in m_salist && j < k :: !Heads(chains[j], dir)
      {
        if k in m_salist {
          assert Entry(k);
          if m_salist[k].data.dir == dir {
            return true, k;
          }
        }
        k := k + 1;
      }
    }

    /** link(head->link()) and head->link(p). */
    static method InsertBehind(head: Node<Adapter>, p: Node<Adapter>, ghost nodes: seq<Node<Adapter>>, ghost c: seq<Adapter>)
      requires Holds(head, nodes, c) && p !in nodes
      modifies head`next, p`next
      ensures c != [] && nodes != [] && Holds(head, [head, p] + nodes[1..], Behind(c, p.data))
    {
      p.next := head.next;
      ChainPrepended(p, head.next, nodes[1..]);
      head.next := p;
      ghost var tail := [p] + nodes[1..];
      ChainPrepended(head, p, tail);
      assert [head] + tail == [head, p] + nodes[1..];
    }

    /** One row of the configuration; null when it is skipped. */
    method AddRow(number: int, dir: string) returns (p: Node?<Adapter>)
      requires Valid()
      modifies this, owner.Keys`next
      ensures Valid()
      ensures made == Made(old(chains), old(made), Row(number, dir))
      ensures p == null <==> Row(number, dir).id in old(chains)
      ensures p == null ==> owner == old(owner)
      ensures p != null ==> fresh(p) && p.data == Row(number, dir) && owner.Keys == old(owner.Keys) + {p}
    {
      var row := Row(number, dir);
      if row.id in m_salist {
        return null;
      }
      p := new Node(row, null);
      Link(p);
    }

    /** Into the chain of its directory, or as the first of one. */
    method Link(p: Node<Adapter>)
      requires Valid() && p !in owner && p.next == null && p.data.id !in m_salist && p.data.id < IDS
      modifies this, p`next, owner.Keys`next
      ensures Valid() && made == old(made) + [p.data] && owner.Keys == old(owner.Keys) + {p}
    {
      var found, k := FindDir(p.data.dir);
      if found {
        Join(p, k);
      } else {
        Start(p);
      }
    }

    /** The nodes under k, which p has joined. */
    method SetNodes(p: Node<Adapter>, k: int, head: Node<Adapter>, ghost nodes: seq<Node<Adapter>>)
      requires forall n | n in owner :: Kept(n)
      requires forall j | j in m_salist && j != k :: Entry(j)
      requires p !in owner && p in nodes
      requires forall n | n in owner && owner[n] == k :: n in nodes
      modifies this`owner, this`m_salist, this`lists
      ensures owner == old(owner)[p := k] && m_salist == old(m_salist)[k := head] && lists == old(lists)[k := nodes]
      ensures forall n | n in owner :: Kept(n)
      ensures forall j | j in m_salist && j != k :: Entry(j)
    {
      owner := owner[p := k];
      m_salist := m_salist[k := head];
      lists := lists[k := nodes];
      forall n | n in owner ensures Kept(n) {
        assert n == p || old(n in owner && Kept(n));
      }
      forall j | j in m_salist && j != k ensures Entry(j) {
        assert old(Entry(j));
      }
    }

    /** The chain under k, new or longer by p. */
    method SetChain(p: Node<Adapter>, k: int, head: Node<Adapter>, ghost nodes: seq<Node<Adapter>>, ghost c: seq<Adapter>)
      requires ChainsInv(chains[k := c], made + [p.data]) && chains.Keys == m_salist.Keys
      requires 0 <= k < IDS && forall j | j in m_salist && j != k :: 0 <= j < IDS && Entry(j)
      requires forall n | n in owner :: Kept(n)
      requires p !in owner && p in nodes && Holds(head, nodes, c)
      requires Owned(nodes, owner[p := k], k)
      requires forall n | n in owner && owner[n] == k :: n in nodes
      modifies this
      ensures Valid() && made == old(made) + [p.data] && owner == old(owner)[p := k]
    {
      SetNodes(p, k, head, nodes);
      SetValues(p.data, k, c);
    }

    ghost method SetValues(a: Adapter, k: int, c: seq<Adapter>)
      requires ChainsInv(chains[k := c], made + [a]) && chains.Keys + {k} == m_salist.Keys
      requires k in lists && Owned(lists[k], owner, k) && Holds(m_salist[k], lists[k], c)
      requires 0 <= k < IDS && forall j | j in m_salist && j != k :: 0 <= j < IDS && Entry(j)
      requires forall n | n in owner :: Kept(n)
      modifies this`chains, this`made
      ensures Valid() && made == old(made) + [a]
    {
      chains := chains[k := c];
      made := made + [a];
      forall j | j in m_salist ensures Entry(j) {
        assert j == k || old(Entry(j));
      }
    }

    lemma EntriesApart(k: int)
      requires Valid() && k in m_salist
      ensures k in lists && forall j | j in m_salist && j != k :: j in lists && Apart(lists[j], lists[k])
    {
      assert Entry(k);
      forall j | j in m_salist && j != k ensures j in lists && Apart(lists[j], lists[k]) {
        assert Entry(j);
      }
    }

    method Join(p: Node<Adapter>, k: int)
      requires Valid() && p !in owner && k in m_salist && Heads(chains[k], p.data.dir)
      modifies this, p`next, owner.Keys`next
      ensures Valid() && made == old(made) + [p.data] && owner == old(owner)[p := k]
    {
      assert Entry(k);
      ghost var nodes := lists[k];
      EntriesApart(k);
      JoinKeeps(chains, made, p.data, k);
      InsertBehind(m_salist[k], p, nodes, chains[k]);
      forall j | j in m_salist && j != k ensures Entry(j) {
        assert old(Entry(j)) && Apart(lists[j], nodes);
      }
      ghost var longer := [m_salist[k], p] + nodes[1..];
      forall n | n in owner && owner[n] == k ensures n in longer {
        assert Kept(n);
      }
      SetChain(p, k, m_salist[k], longer, Behind(chains[k], p.data));
    }

    method Start(p: Node<Adapter>)
      requires Valid() && p !in owner && p.next == null && !Served(chains, p.data.dir)
      requires p.data.id !in m_salist && p.data.id < IDS
      modifies this
      ensures Valid() && made == old(made) + [p.data] && owner == old(owner)[p := p.data.id]
    {
      StartKeeps(chains, made, p.data);
      ghost var none: seq<Node<Adapter>> := [];
      ChainPrepended(p, null, none);
      forall n | n in owner ensures owner[n] != p.data.id {
        assert Kept(n);
      }
      SetChain(p, p.data.id, p, [p] + none, [p.data]);
    }

    /** The destructor deletes its link and so the whole chain behind it. */
    static method Destroy(p: Node?<Adapter>, ghost nodes: seq<Node<Adapter>>) returns (deleted: seq<Node<Adapter>>)
      requires Chain(p, nodes)
      ensures deleted == nodes
      decreases |nodes|
    {
      if p == null {
        return [];
      }
      var behind := Destroy(p.next, nodes[1..]);
      deleted := [p] + behind;
    }

    method DeleteChains() returns (deleted: seq<Node<Adapter>>)
      requires Valid()
      ensures forall n | n in owner :: Count(deleted, n) == 1
      ensures forall n | n in deleted :: n in owner
    {
      var k := 0;
      deleted := [];
      AllKept();
      while k < IDS
        invariant 0 <= k <= IDS
        invariant forall n | n in owner :: Count(deleted, n) == if owner[n] < k then 1 else 0
        invariant forall n | n in deleted :: n in owner
      {
        if k in m_salist {
          assert Entry(k);
          var ds := Destroy(m_salist[k], lists[k]);
          Deleted(k, deleted);
          deleted := deleted + ds;
        } else {
          NoneDeleted(k);
        }
        k := k + 1;
      }
    }

    lemma NoneDeleted(k: int)
      requires Valid() && k !in m_salist
      ensures forall n | n in owner :: owner[n] != k
    {
    }

    lemma AllKept()
      requires Valid()
      ensures forall n | n in owner :: 0 <= owner[n] < IDS
    {
    }

    /** Every adapter ever made is deleted once, and nothing else. */
    method Release() returns (deleted: seq<Node<Adapter>>)
      requires Valid()
      modifies this
      ensures Valid() && m_salist == map[] && made == []
      ensures forall n | n in old(owner) :: Count(deleted, n) == 1
      ensures forall n | n in deleted :: n in old(owner)
    {
      deleted := DeleteChains();
      m_salist := map[];
      chains, made, lists, owner := map[], [], map[], map[];
    }

    lemma Deleted(k: int, deleted: seq<Node<Adapter>>)
      requires Valid() && k in m_salist
      requires forall n | n in owner :: Count(deleted, n) == if owner[n] < k then 1 else 0
      ensures k in lists && forall n | n in owner :: Count(deleted + lists[k], n) == if owner[n] < k + 1 then 1 else 0
    {
      assert Entry(k);
      forall n | n in owner ensures Count(deleted + lists[k], n) == if owner[n] < k + 1 then 1 else 0 {
        CountJoin(deleted, lists[k], n);
        OnceInChain(m_salist[k], lists[k], n);
        assert Kept(n);
      }
    }
  }

  lemma {:induction false} OnceInChain(head: Node?<Adapter>, nodes: seq<Node<Adapter>>, n: Node<Adapter>)
    requires Chain(head, nodes)
    ensures Count(nodes, n) == if n in nodes then 1 else 0
    decreases |nodes|
  {
    if nodes != [] {
      CountFirst(nodes, n);
      OnceInChain(nodes[0].next, nodes[1..], n);
    }
  }
}
