/** Whether a process has capabilities in a namespace: the walk up the user
    namespaces, and the rule it is to decide. */
module UsernsWalk {
  import opened NamespaceIds
  import opened Options

  datatype UserNs = UserNs(parent: Option<NsId>, ownerUid: nat)

  type Capability = nat

  /** The user namespaces; for each other namespace its owner; the user namespace
      the program runs in; and the capabilities there are. rank witnesses that
      parents do not loop. */
  datatype World = World(users: map<NsId, UserNs>, owningUserns: map<NsId, NsId>, caller: NsId,
                         capabilities: set<Capability>, ghost rank: map<NsId, nat>)

  datatype Process = Process(ns: NsId, euid: nat, capabilities: set<Capability>)

  ghost predicate Proper(w: World) {
    && w.users.Keys <= w.rank.Keys
    && w.caller in w.users && w.capabilities != {}
    && (forall n | n in w.owningUserns :: n !in w.users && w.owningUserns[n] in w.users)
    && (forall n | n in w.users && w.users[n].parent.Some? ::
          w.users[n].parent.value in w.users && w.rank[w.users[n].parent.value] < w.rank[n])
  }

  /** a is n or an ancestor of n. */
  predicate AtOrAbove(w: World, a: NsId, n: NsId)
    requires Proper(w) && n in w.users
    decreases w.rank[n]
  {
    a == n || (w.users[n].parent.Some? && AtOrAbove(w, a, w.users[n].parent.value))
  }

  predicate Ancestor(w: World, a: NsId, n: NsId)
    requires Proper(w) && n in w.users
  {
    w.users[n].parent.Some? && AtOrAbove(w, a, w.users[n].parent.value)
  }

  /** The child of a on the way down to n. */
  function Toward(w: World, a: NsId, n: NsId): (d: NsId)
    requires Proper(w) && n in w.users && Ancestor(w, a, n)
    ensures d in w.users && w.users[d].parent == Some(a) && AtOrAbove(w, d, n)
    decreases w.rank[n]
  {
    var p := w.users[n].parent.value;
    if p == a then n else Toward(w, a, p)
  }

  /** The program can open a namespace only at or below its own. */
  predicate Visible(w: World, n: NsId)
    requires Proper(w)
  {
    n in w.users && AtOrAbove(w, w.caller, n)
  }

  function GetParent(w: World, n: NsId): Option<NsId>
    requires Proper(w) && n in w.users
  {
    if w.users[n].parent.Some? && Visible(w, w.users[n].parent.value) then w.users[n].parent else None
  }

  lemma {:induction false} AboveIsTransitive(w: World, a: NsId, b: NsId, n: NsId)
    requires Proper(w) && n in w.users && b in w.users && AtOrAbove(w, b, n) && AtOrAbove(w, a, b)
    ensures AtOrAbove(w, a, n)
    decreases w.rank[n]
  {
    if b != n {
      AboveIsTransitive(w, a, b, w.users[n].parent.value);
    }
  }

  lemma {:induction false} AboveHasLowerRank(w: World, a: NsId, n: NsId)
    requires Proper(w) && n in w.users && AtOrAbove(w, a, n)
    ensures a in w.users && w.rank[a] <= w.rank[n]
    decreases w.rank[n]
  {
    if a != n {
      AboveHasLowerRank(w, a, w.users[n].parent.value);
    }
  }

  /** Only one namespace on the way has a as its parent. */
  lemma {:induction false} TowardIsUnique(w: World, a: NsId, n: NsId, d: NsId)
    requires Proper(w) && n in w.users && d in w.users && AtOrAbove(w, d, n) && w.users[d].parent == Some(a)
    ensures Ancestor(w, a, n) && Toward(w, a, n) == d
    decreases w.rank[n]
  {
    if d != n {
      var p := w.users[n].parent.value;
      TowardIsUnique(w, a, p, d);
      AboveHasLowerRank(w, d, p);
    }
  }

  /** None stands for -1. The walk finds x exactly if it is an ancestor that can
      be seen, and then returns the one namespace on the way whose parent it is. */
  method IsAncestorUserns(w: World, x: NsId, y: NsId) returns (r: Option<NsId>)
    requires Proper(w) && y in w.users
    ensures r.Some? <==> Ancestor(w, x, y) && Visible(w, x)
    ensures r.Some? ==> r.value == Toward(w, x, y)
  {
    var child := y;
    while true
      invariant child in w.users && AtOrAbove(w, child, y)
      invariant Ancestor(w, x, y) <==> Ancestor(w, x, child)
      invariant Ancestor(w, x, y) ==> Toward(w, x, y) == Toward(w, x, child)
      decreases w.rank[child]
    {
      var parent := GetParent(w, child);
      if parent.None? {
        if Ancestor(w, x, child) && Visible(w, x) {
          AboveIsTransitive(w, w.caller, x, w.users[child].parent.value);
          assert false;
        }
        return None;
      }
      if parent.value == x {
        return Some(child);
      }
      ghost var below := child;
      child := parent.value;
      assert AtOrAbove(w, child, below);
      AboveIsTransitive(w, child, below, y);
    }
  }

  // ------------------------------------------------------------ the rule

  /** The capabilities a process has in a user namespace: those of its sets if it
      is a member; all, if it is a member of the parent and its effective UID is
      the owner; and whatever it has in the parent. */
  ghost function Entitled(w: World, p: Process, n: NsId): set<Capability>
    requires Proper(w) && n in w.users
    decreases w.rank[n]
  {
    var up := w.users[n].parent;
    (if p.ns == n then p.capabilities else {})
    + (if up == Some(p.ns) && w.users[n].ownerUid == p.euid then w.capabilities else {})
    + (if up.Some? then Entitled(w, p, up.value) else {})
  }

  lemma {:induction false} EntitledByPlace(w: World, p: Process, n: NsId)
    requires Proper(w) && n in w.users && p.capabilities <= w.capabilities
    ensures !AtOrAbove(w, p.ns, n) ==> Entitled(w, p, n) == {}
    ensures p.ns == n ==> Entitled(w, p, n) == p.capabilities
    ensures Ancestor(w, p.ns, n) ==>
              Entitled(w, p, n)
              == if w.users[Toward(w, p.ns, n)].ownerUid == p.euid then w.capabilities else p.capabilities
    decreases w.rank[n]
  {
    var up := w.users[n].parent;
    if up.Some? {
      EntitledByPlace(w, p, up.value);
      if p.ns == n && AtOrAbove(w, n, up.value) {
        AboveHasLowerRank(w, n, up.value);
        assert false;
      }
      if up.value == p.ns && Ancestor(w, p.ns, up.value) {
        AboveHasLowerRank(w, p.ns, w.users[up.value].parent.value);
        assert false;
      }
    }
  }

  datatype Verdict = InTarget | NotInAncestor | Owner | NotOwner | CannotOpen

  /** What the program says the process has in the target. */
  function Reported(w: World, v: Verdict, p: Process): set<Capability> {
    match v
    case InTarget => p.capabilities
    case NotInAncestor => {}
    case Owner => w.capabilities
    case NotOwner => p.capabilities
    case CannotOpen => {}
  }

  /** The user namespace that counts for the target. */
  function Relevant(w: World, target: NsId): Option<NsId> {
    if target in w.users then Some(target)
    else if target in w.owningUserns then Some(w.owningUserns[target])
    else None
  }

  const CAP_SYS_PTRACE: Capability := 19

  /** What the kernel asks of the program before it opens /proc/PID/ns/user of a
      process: to be in the same user namespace, or to have CAP_SYS_PTRACE there.
      It asks more, so this does not say when the call succeeds. */
  ghost predicate MayOpen(w: World, self: Process, p: Process)
    requires Proper(w)
  {
    p.ns in w.users && (p.ns == self.ns || CAP_SYS_PTRACE in Entitled(w, self, p.ns))
  }

  /** So a process in an ancestor the program cannot see is never looked at. */
  lemma OpenedMeansVisible(w: World, self: Process, p: Process)
    requires Proper(w) && self.ns == w.caller && self.capabilities <= w.capabilities && MayOpen(w, self, p)
    ensures Visible(w, p.ns)
  {
    EntitledByPlace(w, self, p.ns);
  }

  /** self is the program; allowed says whether the kernel let it open the process's
      user namespace. Every verdict that is given agrees with the rule. */
  method Decide(w: World, self: Process, p: Process, allowed: bool, target: NsId) returns (v: Verdict)
    requires Proper(w) && p.capabilities <= w.capabilities
    requires self.ns == w.caller && self.capabilities <= w.capabilities
    requires allowed ==> MayOpen(w, self, p)
    ensures v == CannotOpen <==>
              || Relevant(w, target).None? || (target !in w.users && !Visible(w, w.owningUserns[target]))
              || !allowed
    ensures v != CannotOpen ==> Reported(w, v, p) == Entitled(w, p, Relevant(w, target).value)
    ensures v == InTarget ==> Relevant(w, target) == Some(p.ns)
    ensures v == NotInAncestor ==> !AtOrAbove(w, p.ns, Relevant(w, target).value)
  {
    var userns := target;
    if target !in w.users {
      if target !in w.owningUserns || !Visible(w, w.owningUserns[target]) {
        return CannotOpen;
      }
      userns := w.owningUserns[target];
    }
    if !allowed {
      return CannotOpen;
    }
    OpenedMeansVisible(w, self, p);
    EntitledByPlace(w, p, userns);
    if Ancestor(w, userns, userns) {
      AboveHasLowerRank(w, userns, w.users[userns].parent.value);
      assert false;
    }
    if p.ns == userns {
      v := InTarget;
    } else {
      var desc := IsAncestorUserns(w, p.ns, userns);
      if desc.None? {
        v := NotInAncestor;
      } else if p.euid == w.users[desc.value].ownerUid {
        v := Owner;
      } else {
        v := NotOwner;
      }
    }
  }
}
