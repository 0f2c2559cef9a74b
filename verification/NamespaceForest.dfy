/** Building the forest of namespaces from parent and owner queries. */
module NamespaceForest {
  import opened NamespaceIds
  import opened Options

  datatype NsType = Cgroup | Ipc | Mnt | Net | Pid | Time | User | Uts

  /** What the kernel answers about one namespace file: its type, its creator,
      and the namespace that NS_GET_USERNS (or NS_GET_PARENT, when only the PID
      hierarchy is shown) opens; None is the EPERM answer. */
  datatype NsFile = NsFile(nsType: NsType, creatorUID: nat, parent: Option<NsId>)

  datatype Attribs = Attribs(nsType: NsType, pids: seq<int>, children: seq<NsId>, creatorUID: nat)

  type NsList = map<NsId, Attribs>

  const INVISIBLE := NsId(0, 0)

  /** The namespaces there are. rank witnesses that parents do not loop. */
  datatype World = World(files: map<NsId, NsFile>, pidns: bool, ghost rank: map<NsId, nat>, ghost bound: nat)

  ghost predicate Proper(w: World) {
    && INVISIBLE !in w.files
    && (forall n | n in w.files :: n in w.rank && w.rank[n] < w.bound)
    && (forall n | n in w.files && w.files[n].parent.Some? ::
          w.files[n].parent.value in w.files && w.rank[w.files[n].parent.value] < w.rank[n])
  }

  /** The key under which n is recorded as a child: its parent or owner, or the
      special entry if that one is not visible; None for a topmost namespace. */
  function UpKey(w: World, n: NsId): Option<NsId>
    requires n in w.files
  {
    if w.files[n].parent.Some? then w.files[n].parent
    else if w.files[n].nsType == User || w.pidns then None
    else Some(INVISIBLE)
  }

  /** Distance from the top; the special entry counts as a top. */
  ghost function Depth(w: World, n: NsId): nat
    requires Proper(w) && (n == INVISIBLE || n in w.files)
    decreases if n in w.files then w.rank[n] + 1 else 0
  {
    if n == INVISIBLE || UpKey(w, n).None? then 0 else 1 + Depth(w, UpKey(w, n).value)
  }

  /** n, the keys above it, and the special entry if the chain leads there. */
  ghost function Chain(w: World, n: NsId): set<NsId>
    requires Proper(w) && (n == INVISIBLE || n in w.files)
    decreases if n in w.files then w.rank[n] + 1 else 0
  {
    {n} + if n == INVISIBLE || UpKey(w, n).None? then {} else Chain(w, UpKey(w, n).value)
  }

  ghost predicate NoDup<T>(s: seq<T>) {
    forall i, j | 0 <= i < j < |s| :: s[i] != s[j]
  }

  // -------------------------------------------------- the recorded forest

  /** Recorded as itself, and linked below its key. pending are the entries whose
      own parents are still being added. */
  ghost predicate Linked(w: World, list: NsList, pending: set<NsId>, n: NsId) {
    n in list && n in w.files && n !in pending
  }

  /** The list is closed upwards and its child lists are exactly the kernel's
      relation, each child once, except for the pending entries. */
  ghost predicate Forest(w: World, list: NsList, pending: set<NsId>) {
    && Proper(w)
    && pending <= list.Keys && pending <= w.files.Keys
    && (forall n | n in list :: n == INVISIBLE || n in w.files)
    && (forall n | n in list && n in w.files ::
          && list[n].nsType == w.files[n].nsType
          && (list[n].nsType == User ==> list[n].creatorUID == w.files[n].creatorUID))
    && (INVISIBLE in list ==> list[INVISIBLE].nsType == User && list[INVISIBLE].children != [])
    && (forall n | Linked(w, list, pending, n) && UpKey(w, n).Some? :: UpKey(w, n).value in list)
    && (forall p | p in list :: NoDup(list[p].children))
    && (forall p, n | p in list :: n in list[p].children <==> Linked(w, list, pending, n) && UpKey(w, n) == Some(p))
  }

  /** The topmost namespace remembered is one, if there is any in the list. */
  ghost predicate RootRight(w: World, list: NsList, root: NsId, pending: set<NsId>) {
    && (root != INVISIBLE ==> Linked(w, list, pending, root) && UpKey(w, root) == None)
    && (root == INVISIBLE ==> forall n | Linked(w, list, pending, n) :: UpKey(w, n) != None)
  }

  /** Whatever is linked has its whole chain in the list. */
  lemma {:induction false} ChainRecorded(w: World, list: NsList, pending: set<NsId>, n: NsId)
    requires Forest(w, list, pending) && Linked(w, list, pending, n)
    requires forall q | q in pending :: w.rank[q] >= w.rank[n]
    ensures Chain(w, n) <= list.Keys
    decreases w.rank[n]
  {
    var up := UpKey(w, n);
    if up.Some? && up.value != INVISIBLE {
      ChainRecorded(w, list, pending, up.value);
    }
  }

  lemma SamePlaces(w: World, list: NsList, pending: set<NsId>, n: NsId, pids: seq<int>)
    requires Forest(w, list, pending) && n in list
    ensures Forest(w, list[n := list[n].(pids := pids)], pending)
  {
    var t := list[n := list[n].(pids := pids)];
    forall p, m | p in t
      ensures m in t[p].children <==> Linked(w, t, pending, m) && UpKey(w, m) == Some(p)
    {
      assert t[p].children == list[p].children;
      assert Linked(w, t, pending, m) <==> Linked(w, list, pending, m);
      assert m in list[p].children <==> Linked(w, list, pending, m) && UpKey(w, m) == Some(p);
    }
  }

  /** A new entry whose parent is still to be looked up. */
  lemma EntryInserted(w: World, list: NsList, pending: set<NsId>, n: NsId, a: Attribs)
    requires Forest(w, list, pending) && n in w.files && n !in list
    requires a.nsType == w.files[n].nsType && (a.nsType == User ==> a.creatorUID == w.files[n].creatorUID)
    requires a.children == []
    ensures Forest(w, list[n := a], pending + {n})
  {
    var t := list[n := a];
    forall p, m | p in t
      ensures m in t[p].children <==> Linked(w, t, pending + {n}, m) && UpKey(w, m) == Some(p)
    {
      assert Linked(w, t, pending + {n}, m) <==> Linked(w, list, pending, m);
      if p != n {
        assert t[p].children == list[p].children;
        assert m in list[p].children <==> Linked(w, list, pending, m) && UpKey(w, m) == Some(p);
      }
    }
  }

  lemma LinkedTop(w: World, list: NsList, pending: set<NsId>, n: NsId)
    requires Forest(w, list, pending + {n}) && n !in pending && UpKey(w, n) == None
    ensures Forest(w, list, pending)
  {
    forall p, m | p in list
      ensures m in list[p].children <==> Linked(w, list, pending, m) && UpKey(w, m) == Some(p)
    {
      assert m != n ==> (Linked(w, list, pending, m) <==> Linked(w, list, pending + {n}, m));
    }
  }

  lemma NewTop(w: World, list: NsList, pending: set<NsId>, n: NsId)
    requires Forest(w, list, pending + {n}) && n !in pending && n in list && n in w.files && UpKey(w, n) == None
    ensures Forest(w, list, pending) && RootRight(w, list, n, pending)
  {
    LinkedTop(w, list, pending, n);
  }

  lemma NewEntry(w: World, list: NsList, root: NsId, pending: set<NsId>, n: NsId, a: Attribs)
    requires Forest(w, list, pending) && RootRight(w, list, root, pending) && n in w.files && n !in list
    requires a.nsType == w.files[n].nsType && (a.nsType == User ==> a.creatorUID == w.files[n].creatorUID)
    requires a.children == []
    ensures Forest(w, list[n := a], pending + {n}) && RootRight(w, list[n := a], root, pending + {n})
  {
    EntryInserted(w, list, pending, n, a);
    hide Forest;
    assert forall m :: Linked(w, list[n := a], pending + {n}, m) <==> Linked(w, list, pending, m) && m != n;
  }

  lemma LinkedChild(w: World, list: NsList, pending: set<NsId>, n: NsId, p: NsId)
    requires Forest(w, list, pending + {n}) && n !in pending && UpKey(w, n) == Some(p) && p in list
    ensures Forest(w, list[p := list[p].(children := list[p].children + [n])], pending)
  {
    var t := list[p := list[p].(children := list[p].children + [n])];
    assert !Linked(w, list, pending + {n}, n);
    forall q, m | q in t
      ensures m in t[q].children <==> Linked(w, t, pending, m) && UpKey(w, m) == Some(q)
    {
      assert m != n ==> (Linked(w, t, pending, m) <==> Linked(w, list, pending + {n}, m));
    }
  }

  lemma NewChild(w: World, list: NsList, root: NsId, pending: set<NsId>, n: NsId, p: NsId)
    requires Forest(w, list, pending + {n}) && n !in pending && n in w.files && UpKey(w, n) == Some(p) && p in list
    requires RootRight(w, list, root, pending + {n})
    ensures var longer := list[p := list[p].(children := list[p].children + [n])];
            Forest(w, longer, pending) && RootRight(w, longer, root, pending)
  {
    LinkedChild(w, list, pending, n, p);
    var longer := list[p := list[p].(children := list[p].children + [n])];
    hide Forest;
    assert forall m :: Linked(w, longer, pending, m) ==> m == n || Linked(w, list, pending + {n}, m);
    assert forall m :: Linked(w, list, pending + {n}, m) ==> Linked(w, longer, pending, m);
  }

  /** The first namespace whose owner is not visible brings the special entry. */
  lemma LinkedInvisible(w: World, list: NsList, pending: set<NsId>, n: NsId)
    requires Forest(w, list, pending + {n}) && n !in pending
    requires UpKey(w, n) == Some(INVISIBLE) && INVISIBLE !in list
    ensures Forest(w, list[INVISIBLE := Attribs(User, [], [n], 0)], pending)
  {
    var t := list[INVISIBLE := Attribs(User, [], [n], 0)];
    forall q, m | q in t
      ensures m in t[q].children <==> Linked(w, t, pending, m) && UpKey(w, m) == Some(q)
    {
      assert m != n ==> (Linked(w, t, pending, m) <==> Linked(w, list, pending + {n}, m));
    }
  }

  /** Children are recorded behind those recorded before. */
  ghost predicate ChildrenGrow(a: NsList, b: NsList) {
    forall n | n in a :: n in b && a[n].children <= b[n].children
  }

  lemma ChildAppended(a: NsList, b: NsList, p: NsId, n: NsId)
    requires ChildrenGrow(a, b) && p in b
    ensures ChildrenGrow(a, b[p := b[p].(children := b[p].children + [n])])
  {
  }

  class NamespaceInfo {
    const world: World
    var nsList: NsList
    var rootNS: NsId

    ghost predicate Valid(pending: set<NsId>)
      reads this
    {
      Forest(world, nsList, pending) && RootRight(world, nsList, rootNS, pending)
    }

    constructor (w: World)
      requires Proper(w)
      ensures Valid({}) && nsList == map[] && world == w
    {
      world, nsList, rootNS := w, map[], INVISIBLE;
    }

    /** Every member list but that of ns is kept, and new entries have none. */
    twostate predicate PidsKept(ns: NsId)
      reads this
    {
      forall n | n in nsList && n != ns ::
        nsList[n].pids == if n in old(nsList) then old(nsList[n].pids) else []
    }

    method AddNamespace(ns: NsId, pid: int, ghost pending: set<NsId>)
      requires Valid(pending) && ns in world.files
      requires forall q | q in pending :: world.rank[q] > world.rank[ns]
      modifies this
      ensures Valid(pending)
      ensures nsList.Keys == old(nsList.Keys) + Chain(world, ns)
      ensures PidsKept(ns) && ChildrenGrow(old(nsList), nsList)
      ensures ns in nsList
      ensures nsList[ns].pids
          == (if ns in old(nsList) then old(nsList[ns].pids) else []) + if pid > 0 then [pid] else []
      decreases world.rank[ns], 3
    {
      if ns !in nsList {
        AddNamespaceToList(ns, pending);
      } else {
        ChainRecorded(world, nsList, pending, ns);
      }
      if pid > 0 {
        SamePlaces(world, nsList, pending, ns, nsList[ns].pids + [pid]);
        nsList := nsList[ns := nsList[ns].(pids := nsList[ns].pids + [pid])];
      }
    }

    method AddNamespaceToList(ns: NsId, ghost pending: set<NsId>)
      requires Valid(pending) && ns in world.files && ns !in nsList
      requires forall q | q in pending :: world.rank[q] > world.rank[ns]
      modifies this
      ensures Valid(pending)
      ensures nsList.Keys == old(nsList.Keys) + Chain(world, ns)
      ensures PidsKept(ns) && nsList[ns].pids == [] && ChildrenGrow(old(nsList), nsList)
      ensures UpKey(world, ns).None? ==> rootNS == ns
      decreases world.rank[ns], 2
    {
      assert Proper(world);
      hide Forest, Chain, RootRight, Proper;
      var file := world.files[ns];
      var entry := Attribs(file.nsType, [], [], if file.nsType == User then file.creatorUID else 0);
      NewEntry(world, nsList, rootNS, pending, ns, entry);
      nsList := nsList[ns := entry];
      LinkUpwards(ns, pending);
    }

    /** The second half of adding ns: its place below its parent or owner. */
    method LinkUpwards(ns: NsId, ghost pending: set<NsId>)
      requires Valid(pending + {ns}) && ns !in pending && ns in nsList && ns in world.files
      requires forall q | q in pending :: world.rank[q] > world.rank[ns]
      modifies this
      ensures Valid(pending)
      ensures nsList.Keys == old(nsList.Keys) + Chain(world, ns)
      ensures forall n | n in nsList ::
        nsList[n].pids == if n in old(nsList) then old(nsList[n].pids) else []
      ensures ChildrenGrow(old(nsList), nsList)
      ensures UpKey(world, ns).None? ==> rootNS == ns
      decreases world.rank[ns], 1
    {
      assert Proper(world) && ns != INVISIBLE;
      assert Chain(world, ns) == {ns} + if UpKey(world, ns).None? then {} else Chain(world, UpKey(world, ns).value);
      assert Chain(world, INVISIBLE) == {INVISIBLE};
      hide Forest, Chain, RootRight, Proper;
      var file := world.files[ns];
      match file.parent
      case None =>
        if file.nsType == User || world.pidns {
          NewTop(world, nsList, pending, ns);
          rootNS := ns;
        } else {
          AddInvisible(ns, pending);
        }
      case Some(parent) =>
        AddBelow(ns, parent, pending);
    }

    /** The parent or owner is added with all above it, and ns linked below. */
    method AddBelow(ns: NsId, parent: NsId, ghost pending: set<NsId>)
      requires Valid(pending + {ns}) && ns !in pending && ns in world.files
      requires world.files[ns].parent == Some(parent)
      requires forall q | q in pending :: world.rank[q] > world.rank[ns]
      modifies this
      ensures Valid(pending)
      ensures nsList.Keys == old(nsList.Keys) + Chain(world, parent)
      ensures forall n | n in nsList ::
        nsList[n].pids == if n in old(nsList) then old(nsList[n].pids) else []
      ensures ChildrenGrow(old(nsList), nsList)
      decreases world.rank[ns], 0
    {
      assert Proper(world) && parent in world.files && world.rank[parent] < world.rank[ns];
      hide Forest, Chain, RootRight, Proper, ChildrenGrow;
      AddNamespace(parent, -1, pending + {ns});
      NewChild(world, nsList, rootNS, pending, ns, parent);
      ChildAppended(old(nsList), nsList, parent, ns);
      nsList := nsList[parent := nsList[parent].(children := nsList[parent].children + [ns])];
    }

    /** A nonuser namespace whose owner is not visible goes below the special
        entry, which is created if need be. */
    method AddInvisible(ns: NsId, ghost pending: set<NsId>)
      requires Forest(world, nsList, pending + {ns}) && ns !in pending && UpKey(world, ns) == Some(INVISIBLE)
      requires RootRight(world, nsList, rootNS, pending + {ns})
      modifies this
      ensures Valid(pending) && rootNS == old(rootNS)
      ensures nsList.Keys == old(nsList.Keys) + {INVISIBLE}
      ensures forall n | n in nsList ::
        nsList[n].pids == if n in old(nsList) then old(nsList[n].pids) else []
      ensures ChildrenGrow(old(nsList), nsList)
    {
      if INVISIBLE !in nsList {
        LinkedInvisible(world, nsList, pending, ns);
        ghost var goal := nsList[INVISIBLE := Attribs(User, [], [ns], 0)];
        nsList := nsList[INVISIBLE := Attribs(User, [], [], 0)];
        assert nsList[INVISIBLE].children + [ns] == [ns];
        assert goal == nsList[INVISIBLE := nsList[INVISIBLE].(children := nsList[INVISIBLE].children + [ns])];
      } else {
        LinkedChild(world, nsList, pending, ns, INVISIBLE);
      }
      nsList := nsList[INVISIBLE := nsList[INVISIBLE].(children := nsList[INVISIBLE].children + [ns])];
    }

    /** Every scanned process's namespace files, in the order they are met. */
    method AddProcesses(scan: seq<Member>)
      requires Valid({}) && nsList == map[]
      requires forall m | m in scan :: m.ns in world.files
      modifies this
      ensures RootRight(world, nsList, rootNS, {})
      ensures Built(world, scan, nsList)
    {
      NothingBuilt(world, nsList);
      assert scan[..0] == [];
      hide Forest, Chain, RootRight, Recorded, PidsOf, Proper;
      for j := 0 to |scan|
        invariant Valid({})
        invariant Built(world, scan[..j], nsList)
      {
        ghost var before := nsList;
        var m := scan[j];
        AddNamespace(m.ns, m.pid, {});
        assert scan[..j + 1] == scan[..j] + [m];
        BuiltSnoc(world, scan[..j], m, before, nsList);
      }
      assert scan[..|scan|] == scan;
    }
  }

  // -------------------------------------------------------------- the scan

  /** One /proc/PID/ns file: the namespace and the process. */
  datatype Member = Member(ns: NsId, pid: int)

  ghost function Recorded(w: World, scan: seq<Member>): set<NsId>
    requires Proper(w) && forall m | m in scan :: m.ns in w.files
  {
    set m, k | m in scan && k in Chain(w, m.ns) :: k
  }

  /** The processes scanned in namespace n, in order. */
  function PidsOf(scan: seq<Member>, n: NsId): seq<int> {
    if scan == [] then []
    else
      var last := scan[|scan| - 1];
      PidsOf(scan[..|scan| - 1], n) + if last.ns == n && last.pid > 0 then [last.pid] else []
  }

  /** What a scan leaves: exactly the scanned namespaces and what is above them,
      linked as the kernel says, with the processes scanned in each. */
  ghost predicate Built(w: World, scan: seq<Member>, list: NsList) {
    && Forest(w, list, {})
    && (forall m | m in scan :: m.ns in w.files)
    && list.Keys == Recorded(w, scan)
    && PidsRight(scan, list)
  }

  lemma NothingBuilt(w: World, list: NsList)
    requires Forest(w, list, {}) && list == map[]
    ensures Built(w, [], list)
  {
  }

  lemma {:induction false} RecordedSnoc(w: World, scan: seq<Member>, m: Member)
    requires Proper(w) && (forall k | k in scan :: k.ns in w.files) && m.ns in w.files
    ensures forall k | k in scan + [m] :: k.ns in w.files
    ensures Recorded(w, scan + [m]) == Recorded(w, scan) + Chain(w, m.ns)
  {
    var longer := scan + [m];
    assert forall k :: k in longer <==> k in scan || k == m;
  }

  lemma {:induction false} PidsSnoc(scan: seq<Member>, m: Member, n: NsId)
    ensures PidsOf(scan + [m], n) == PidsOf(scan, n) + if m.ns == n && m.pid > 0 then [m.pid] else []
  {
    assert (scan + [m])[..|scan|] == scan;
  }

  /** Processes are listed in the order they were scanned. */
  lemma {:induction false} PidsInOrder(a: seq<Member>, b: seq<Member>, n: NsId)
    ensures PidsOf(a + b, n) == PidsOf(a, n) + PidsOf(b, n)
  {
    if b == [] {
      assert a + b == a;
    } else {
      assert (a + b)[..|a + b| - 1] == a + b[..|b| - 1];
      PidsInOrder(a, b[..|b| - 1], n);
    }
  }

  lemma {:induction false} NotYetSeen(w: World, scan: seq<Member>, n: NsId)
    requires Proper(w) && (forall m | m in scan :: m.ns in w.files)
    requires n !in Recorded(w, scan)
    ensures PidsOf(scan, n) == []
  {
    if scan != [] {
      var last := scan[|scan| - 1];
      assert last in scan && last.ns in Chain(w, last.ns);
      var rest := scan[..|scan| - 1];
      assert forall m | m in rest :: m in scan;
      NotYetSeen(w, rest, n);
    }
  }

  ghost predicate PidsRight(scan: seq<Member>, list: NsList) {
    forall n | n in list :: list[n].pids == PidsOf(scan, n)
  }

  lemma PidsGrow(w: World, scan: seq<Member>, m: Member, before: NsList, after: NsList)
    requires Proper(w) && (forall k | k in scan :: k.ns in w.files) && before.Keys == Recorded(w, scan)
    requires PidsRight(scan, before) && m.ns in after
    requires forall n | n in after && n != m.ns :: after[n].pids == if n in before then before[n].pids else []
    requires after[m.ns].pids == (if m.ns in before then before[m.ns].pids else []) + if m.pid > 0 then [m.pid] else []
    ensures PidsRight(scan + [m], after)
  {
    hide Recorded, PidsOf, Proper;
    forall n | n in after ensures after[n].pids == PidsOf(scan + [m], n) {
      PidsSnoc(scan, m, n);
      if n !in before {
        NotYetSeen(w, scan, n);
      }
    }
  }

  lemma {:induction false} BuiltSnoc(w: World, scan: seq<Member>, m: Member, before: NsList, after: NsList)
    requires Built(w, scan, before) && m.ns in w.files && Forest(w, after, {})
    requires after.Keys == before.Keys + Chain(w, m.ns) && m.ns in after
    requires forall n | n in after && n != m.ns :: after[n].pids == if n in before then before[n].pids else []
    requires after[m.ns].pids == (if m.ns in before then before[m.ns].pids else []) + if m.pid > 0 then [m.pid] else []
    ensures Built(w, scan + [m], after)
  {
    RecordedSnoc(w, scan, m);
    PidsGrow(w, scan, m, before, after);
    hide PidsRight, Chain, Recorded;
  }

  // -------------------------------------------- independent of scan order

  lemma {:induction false} NoDupMultiset(a: seq<NsId>)
    requires NoDup(a)
    ensures forall n :: multiset(a)[n] == if n in a then 1 else 0
  {
    if a != [] {
      NoDupMultiset(a[1..]);
      assert a == [a[0]] + a[1..];
    }
  }

  lemma NoDupSameSet(a: seq<NsId>, b: seq<NsId>)
    requires NoDup(a) && NoDup(b) && forall n :: n in a <==> n in b
    ensures multiset(a) == multiset(b)
  {
    NoDupMultiset(a);
    NoDupMultiset(b);
  }

  /** Two finished lists over the same namespaces have the same edges. */
  lemma SameForest(w: World, a: NsList, b: NsList)
    requires Forest(w, a, {}) && Forest(w, b, {}) && a.Keys == b.Keys
    ensures forall n | n in a :: a[n].nsType == b[n].nsType && multiset(a[n].children) == multiset(b[n].children)
  {
    forall n | n in a
      ensures a[n].nsType == b[n].nsType && multiset(a[n].children) == multiset(b[n].children)
    {
      forall m ensures m in a[n].children <==> m in b[n].children {
        assert Linked(w, a, {}, m) <==> Linked(w, b, {}, m);
      }
      NoDupSameSet(a[n].children, b[n].children);
    }
  }

  /** A member list holds each process as often as it was scanned there. */
  lemma {:induction false} PidCount(scan: seq<Member>, n: NsId, p: int)
    ensures multiset(PidsOf(scan, n))[p] == if p > 0 then multiset(scan)[Member(n, p)] else 0
  {
    if scan != [] {
      var rest, last := scan[..|scan| - 1], scan[|scan| - 1];
      assert scan == rest + [last];
      PidCount(rest, n, p);
    }
  }

  lemma SameRecorded(w: World, scan: seq<Member>, other: seq<Member>)
    requires Proper(w) && (forall m | m in scan :: m.ns in w.files) && (forall m | m in other :: m.ns in w.files)
    requires multiset(scan) == multiset(other)
    ensures Recorded(w, scan) == Recorded(w, other)
  {
    hide Proper, Chain;
    forall m ensures m in scan <==> m in other {
      assert m in scan <==> m in multiset(scan);
      assert m in other <==> m in multiset(other);
    }
  }

  /** The same processes met in another order give the same forest and the same
      member lists. */
  lemma ScanOrderDoesNotMatter(w: World, scan: seq<Member>, other: seq<Member>, a: NsList, b: NsList)
    requires Built(w, scan, a) && Built(w, other, b) && multiset(scan) == multiset(other)
    ensures a.Keys == b.Keys
    ensures forall n | n in a ::
      && a[n].nsType == b[n].nsType
      && multiset(a[n].children) == multiset(b[n].children)
      && multiset(a[n].pids) == multiset(b[n].pids)
  {
    assert Forest(w, a, {}) && Forest(w, b, {}) && Proper(w);
    hide Forest, Proper, Chain, Recorded, PidsOf;
    SameRecorded(w, scan, other);
    SameForest(w, a, b);
    forall n | n in a ensures multiset(a[n].pids) == multiset(b[n].pids) {
      SamePids(scan, other, n);
    }
  }

  lemma {:induction false} SamePids(scan: seq<Member>, other: seq<Member>, n: NsId)
    requires multiset(scan) == multiset(other)
    ensures multiset(PidsOf(scan, n)) == multiset(PidsOf(other, n))
  {
    forall p ensures multiset(PidsOf(scan, n))[p] == multiset(PidsOf(other, n))[p] {
      PidCount(scan, n, p);
      PidCount(other, n, p);
    }
  }
}
