/** Displaying the recorded forest: what is printed, how often and how deep. */
module NamespaceDisplay {
  import opened NamespaceForest
  import opened NamespaceIds
  import opened Options

  /** A namespace reached by the display, and its level of indentation. */
  datatype Visit = Visit(ns: NsId, level: int)

  ghost function Room(w: World, n: NsId): nat
    requires Proper(w) && (n == INVISIBLE || n in w.files)
  {
    if n == INVISIBLE then w.bound + 1 else w.bound - w.rank[n]
  }

  lemma ChildHasLessRoom(w: World, list: NsList, p: NsId, n: NsId)
    requires Forest(w, list, {}) && p in list && n in list[p].children
    ensures n in list && n in w.files && UpKey(w, n) == Some(p) && Room(w, n) < Room(w, p)
  {
    assert Linked(w, list, {}, n);
  }

  // ------------------------------------------------------------- the walk

  /** The subtree below ns in the order the display goes through it. */
  ghost function Walk(w: World, list: NsList, ns: NsId, level: int): seq<Visit>
    requires Forest(w, list, {}) && ns in list
    decreases Room(w, ns), 1, 0
  {
    [Visit(ns, level)] + WalkAll(w, list, ns, list[ns].children, level + 1)
  }

  ghost function WalkAll(w: World, list: NsList, ns: NsId, kids: seq<NsId>, level: int): seq<Visit>
    requires Forest(w, list, {}) && ns in list && forall k | k in kids :: k in list[ns].children
    decreases Room(w, ns), 0, |kids|
  {
    if kids == [] then []
    else
      var last := kids[|kids| - 1];
      ChildHasLessRoom(w, list, ns, last);
      WalkAll(w, list, ns, kids[..|kids| - 1], level) + Walk(w, list, last, level)
  }

  /** User namespaces are always printed, others if their type was asked for. */
  predicate Wanted(list: NsList, mask: set<NsType>, n: NsId) {
    n in list && (list[n].nsType == User || list[n].nsType in mask)
  }

  function Printed(list: NsList, mask: set<NsType>, visits: seq<Visit>): seq<Visit> {
    if visits == [] then []
    else
      var last := visits[|visits| - 1];
      Printed(list, mask, visits[..|visits| - 1]) + if Wanted(list, mask, last.ns) then [last] else []
  }

  lemma {:induction false} PrintedConcat(list: NsList, mask: set<NsType>, a: seq<Visit>, b: seq<Visit>)
    ensures Printed(list, mask, a + b) == Printed(list, mask, a) + Printed(list, mask, b)
  {
    if b == [] {
      assert a + b == a;
    } else {
      assert (a + b)[..|a + b| - 1] == a + b[..|b| - 1];
      PrintedConcat(list, mask, a, b[..|b| - 1]);
    }
  }

  lemma {:induction false} PrintedCount(list: NsList, mask: set<NsType>, visits: seq<Visit>, v: Visit)
    ensures multiset(Printed(list, mask, visits))[v] == if Wanted(list, mask, v.ns) then multiset(visits)[v] else 0
  {
    if visits != [] {
      var rest, last := visits[..|visits| - 1], visits[|visits| - 1];
      assert visits == rest + [last];
      PrintedCount(list, mask, rest, v);
    }
  }

  lemma {:induction false} OneSubtreeMore(w: World, list: NsList, ns: NsId, i: nat, level: int, mask: set<NsType>,
      top: seq<Visit>)
    requires Forest(w, list, {}) && ns in list && i < |list[ns].children|
    ensures var kids := list[ns].children;
            && kids[i] in list
            && Printed(list, mask, top + WalkAll(w, list, ns, kids[..i + 1], level))
               == Printed(list, mask, top + WalkAll(w, list, ns, kids[..i], level))
                  + Printed(list, mask, Walk(w, list, kids[i], level))
  {
    var kids := list[ns].children;
    ChildHasLessRoom(w, list, ns, kids[i]);
    assert kids[..i + 1][..i] == kids[..i];
    var done, next := WalkAll(w, list, ns, kids[..i], level), Walk(w, list, kids[i], level);
    assert WalkAll(w, list, ns, kids[..i + 1], level) == done + next;
    hide *;
    PrintedConcat(list, mask, top + done, next);
    assert top + done + next == top + (done + next);
  }

  /** Owners are user namespaces; with PIDs' own hierarchy, all are PID namespaces. */
  ghost predicate Typed(w: World) {
    if w.pidns then forall n | n in w.files :: w.files[n].nsType == Pid
    else forall n | n in w.files && w.files[n].parent.Some? ::
           w.files[n].parent.value in w.files && w.files[w.files[n].parent.value].nsType == User
  }

  // ------------------------------------------------- what the indent shows

  /** Line j is the nearest one before line i that is less indented, by just one
      level, and is that of the namespace directly above. */
  ghost predicate LineAbove(w: World, lines: seq<Visit>, j: nat, i: nat)
    requires j < i < |lines|
  {
    && lines[i].ns in w.files && UpKey(w, lines[i].ns) == Some(lines[j].ns)
    && lines[j].level + 1 == lines[i].level
    && forall m | j < m < i :: lines[m].level >= lines[i].level
  }

  ghost predicate HasLineAbove(w: World, lines: seq<Visit>, i: nat)
    requires i < |lines|
  {
    exists j: nat :: j < i && LineAbove(w, lines, j, i)
  }

  /** The indentation reads back as the forest. */
  ghost predicate Indented(w: World, lines: seq<Visit>, level: int) {
    forall i {:trigger HasLineAbove(w, lines, i)} | 0 <= i < |lines| && lines[i].level != level ::
      lines[i].level > level && HasLineAbove(w, lines, i)
  }

  lemma AboveInFront(w: World, a: seq<Visit>, b: seq<Visit>, i: nat)
    requires i < |a|
    ensures HasLineAbove(w, a + b, i) <==> HasLineAbove(w, a, i)
  {
    var c := a + b;
    assert forall m | 0 <= m < |a| :: c[m] == a[m];
    if j: nat :| j < i && LineAbove(w, c, j, i) {
      assert LineAbove(w, a, j, i);
    }
    if j: nat :| j < i && LineAbove(w, a, j, i) {
      assert LineAbove(w, c, j, i);
    }
  }

  lemma AboveShifted(w: World, a: seq<Visit>, b: seq<Visit>, i: nat)
    requires i < |b| && HasLineAbove(w, b, i)
    ensures HasLineAbove(w, a + b, |a| + i)
  {
    var c := a + b;
    var j: nat :| j < i && LineAbove(w, b, j, i);
    assert c[|a| + i] == b[i] && c[|a| + j] == b[j];
    forall m | |a| + j < m < |a| + i ensures c[m].level >= c[|a| + i].level {
      assert c[m] == b[m - |a|];
    }
    assert LineAbove(w, c, |a| + j, |a| + i);
  }

  lemma IndentedPrefix(w: World, a: seq<Visit>, b: seq<Visit>, level: int)
    requires Indented(w, a + b, level)
    ensures Indented(w, a, level)
  {
    hide HasLineAbove;
    forall i | 0 <= i < |a| && a[i].level != level ensures a[i].level > level && HasLineAbove(w, a, i) {
      assert (a + b)[i] == a[i];
      AboveInFront(w, a, b, i);
    }
  }

  lemma IndentedConcat(w: World, a: seq<Visit>, b: seq<Visit>, level: int)
    requires Indented(w, a, level) && Indented(w, b, level)
    ensures Indented(w, a + b, level)
  {
    hide HasLineAbove;
    var c := a + b;
    forall i | 0 <= i < |c| && c[i].level != level ensures c[i].level > level && HasLineAbove(w, c, i) {
      if i < |a| {
        AboveInFront(w, a, b, i);
      } else {
        assert b[i - |a|] == c[i] && HasLineAbove(w, b, i - |a|);
        AboveShifted(w, a, b, i - |a|);
      }
    }
  }

  /** A line above others that are all deeper, those one level deeper being of
      its children. */
  lemma IndentedUnder(w: World, ns: NsId, below: seq<Visit>, level: int)
    requires Indented(w, below, level + 1)
    requires forall v | v in below :: v.level > level
    requires forall v | v in below && v.level == level + 1 :: v.ns in w.files && UpKey(w, v.ns) == Some(ns)
    ensures Indented(w, [Visit(ns, level)] + below, level)
  {
    var top, c := [Visit(ns, level)], [Visit(ns, level)] + below;
    assert forall m | 0 < m < |c| :: c[m] == below[m - 1];
    forall i | 0 <= i < |c| && c[i].level != level ensures c[i].level > level && HasLineAbove(w, c, i) {
      assert below[i - 1] in below;
      if c[i].level == level + 1 {
        assert forall m | 0 < m < i :: c[m] in below;
        assert LineAbove(w, c, 0, i);
      } else {
        assert HasLineAbove(w, below, i - 1);
        AboveShifted(w, top, below, i - 1);
      }
    }
  }

  lemma {:induction false} WalkIndented(w: World, list: NsList, ns: NsId, level: int)
    requires Forest(w, list, {}) && ns in list
    ensures var visits := Walk(w, list, ns, level);
            && Indented(w, visits, level) && visits[0] == Visit(ns, level)
            && forall i | 0 < i < |visits| :: visits[i].level > level
    decreases Room(w, ns), 1, 0
  {
    var kids := list[ns].children;
    WalkAllIndented(w, list, ns, kids, level + 1);
    var below := WalkAll(w, list, ns, kids, level + 1);
    assert forall i | 0 < i < |below| + 1 :: ([Visit(ns, level)] + below)[i] in below;
    hide Forest, WalkAll, Indented;
    IndentedUnder(w, ns, below, level);
  }

  lemma {:induction false} WalkAllIndented(w: World, list: NsList, ns: NsId, kids: seq<NsId>, level: int)
    requires Forest(w, list, {}) && ns in list && forall k | k in kids :: k in list[ns].children
    ensures var visits := WalkAll(w, list, ns, kids, level);
            && Indented(w, visits, level)
            && (forall v | v in visits :: v.level >= level)
            && (forall v | v in visits && v.level == level :: v.ns in w.files && UpKey(w, v.ns) == Some(ns))
    decreases Room(w, ns), 0, |kids|
  {
    if kids != [] {
      var rest, last := kids[..|kids| - 1], kids[|kids| - 1];
      ChildHasLessRoom(w, list, ns, last);
      WalkAllIndented(w, list, ns, rest, level);
      WalkIndented(w, list, last, level);
      var a, b := WalkAll(w, list, ns, rest, level), Walk(w, list, last, level);
      assert forall v | v in b :: v == b[0] || v.level > level;
      hide Forest, Walk, Indented, Room;
      IndentedConcat(w, a, b, level);
    }
  }

  /** The namespaces at one level, in order. */
  function AtLevel(lines: seq<Visit>, level: int): seq<NsId> {
    if lines == [] then []
    else
      var last := lines[|lines| - 1];
      AtLevel(lines[..|lines| - 1], level) + if last.level == level then [last.ns] else []
  }

  lemma {:induction false} AtLevelConcat(a: seq<Visit>, b: seq<Visit>, level: int)
    ensures AtLevel(a + b, level) == AtLevel(a, level) + AtLevel(b, level)
  {
    if b == [] {
      assert a + b == a;
    } else {
      assert (a + b)[..|a + b| - 1] == a + b[..|b| - 1];
      AtLevelConcat(a, b[..|b| - 1], level);
    }
  }

  lemma {:induction false} OnlyDeeper(lines: seq<Visit>, level: int)
    requires forall v | v in lines :: v.level > level
    ensures AtLevel(lines, level) == []
  {
    if lines != [] {
      assert lines[|lines| - 1] in lines;
      OnlyDeeper(lines[..|lines| - 1], level);
    }
  }

  /** A tree's walk has its top at the first level, and one level down the children,
      in the order they were recorded. */
  lemma {:induction false} WalkShowsChildren(w: World, list: NsList, ns: NsId, level: int)
    requires Forest(w, list, {}) && ns in list
    ensures AtLevel(Walk(w, list, ns, level), level) == [ns]
    ensures AtLevel(Walk(w, list, ns, level), level + 1) == list[ns].children
  {
    var kids := list[ns].children;
    var top, below := [Visit(ns, level)], WalkAll(w, list, ns, kids, level + 1);
    WalkAllIndented(w, list, ns, kids, level + 1);
    WalkAllShows(w, list, ns, kids, level + 1);
    assert top[..0] == [];
    hide Forest, WalkAll;
    OnlyDeeper(below, level);
    AtLevelConcat(top, below, level);
    AtLevelConcat(top, below, level + 1);
  }

  lemma {:induction false} WalkAllShows(w: World, list: NsList, ns: NsId, kids: seq<NsId>, level: int)
    requires Forest(w, list, {}) && ns in list && forall k | k in kids :: k in list[ns].children
    ensures AtLevel(WalkAll(w, list, ns, kids, level), level) == kids
    decreases |kids|
  {
    if kids != [] {
      var rest, last := kids[..|kids| - 1], kids[|kids| - 1];
      ChildHasLessRoom(w, list, ns, last);
      WalkAllShows(w, list, ns, rest, level);
      WalkIndented(w, list, last, level);
      var a, b := WalkAll(w, list, ns, rest, level), Walk(w, list, last, level);
      hide Forest, Walk, Indented, AtLevel, Room;
      FirstOnly(b, level);
      AtLevelConcat(a, b, level);
    }
  }

  lemma {:induction false} FirstOnly(lines: seq<Visit>, level: int)
    requires lines != [] && lines[0].level == level
    requires forall i | 0 < i < |lines| :: lines[i].level > level
    ensures AtLevel(lines, level) == [lines[0].ns]
  {
    var top, below := [lines[0]], lines[1..];
    assert lines == top + below && top[..0] == [];
    OnlyDeeper(below, level);
    AtLevelConcat(top, below, level);
  }

  /** What is above something wanted is wanted. */
  lemma AboveIsWanted(w: World, list: NsList, mask: set<NsType>, n: NsId)
    requires Forest(w, list, {}) && Typed(w) && Wanted(list, mask, n) && n in w.files && UpKey(w, n).Some?
    ensures Wanted(list, mask, UpKey(w, n).value)
  {
    assert Linked(w, list, {}, n);
  }

  lemma {:induction false} PrintedIsIn(list: NsList, mask: set<NsType>, visits: seq<Visit>)
    ensures forall v | v in Printed(list, mask, visits) :: v in visits && Wanted(list, mask, v.ns)
  {
    if visits != [] {
      PrintedIsIn(list, mask, visits[..|visits| - 1]);
    }
  }

  /** Leaving out what is not wanted leaves the line above where it is. */
  lemma {:induction false} AboveIsPrinted(w: World, list: NsList, mask: set<NsType>, rest: seq<Visit>, last: Visit,
      j: nat)
    requires Forest(w, list, {}) && Typed(w) && Wanted(list, mask, last.ns)
    requires j < |rest| && LineAbove(w, rest + [last], j, |rest|)
    ensures var lines := Printed(list, mask, rest);
            HasLineAbove(w, lines + [last], |lines|)
  {
    var all := rest + [last];
    assert all[|rest|] == last && all[j] == rest[j];
    AboveIsWanted(w, list, mask, last.ns);
    PrintedAt(list, mask, rest, j);
    PrintedIsIn(list, mask, rest[j + 1..]);
    hide Forest, Typed, Printed, Wanted, UpKey;
    forall v | v in rest[j + 1..] ensures v.level >= last.level {
      var k :| j < k < |rest| && rest[k] == v;
      assert all[k] == v;
    }
    var lines, i, behind := Printed(list, mask, rest), |Printed(list, mask, rest[..j])|,
                            Printed(list, mask, rest[j + 1..]);
    forall m | i < m < |lines| ensures lines[m].level >= last.level {
      assert lines[m] == behind[m - i - 1];
    }
    assert LineAbove(w, lines + [last], i, |lines|);
  }

  lemma {:induction false} PrintedAt(list: NsList, mask: set<NsType>, visits: seq<Visit>, j: nat)
    requires j < |visits| && Wanted(list, mask, visits[j].ns)
    ensures Printed(list, mask, visits)
         == Printed(list, mask, visits[..j]) + [visits[j]] + Printed(list, mask, visits[j + 1..])
  {
    var front, here, back := visits[..j], [visits[j]], visits[j + 1..];
    assert visits == front + here + back && here[..0] == [];
    assert Printed(list, mask, here) == here;
    PrintedConcat(list, mask, front + here, back);
    PrintedConcat(list, mask, front, here);
  }

  lemma {:induction false} PrintedIndented(w: World, list: NsList, mask: set<NsType>, visits: seq<Visit>, level: int)
    requires Forest(w, list, {}) && Typed(w) && Indented(w, visits, level)
    ensures Indented(w, Printed(list, mask, visits), level)
  {
    if visits != [] {
      var rest, last := visits[..|visits| - 1], visits[|visits| - 1];
      assert visits == rest + [last];
      IndentedPrefix(w, rest, [last], level);
      PrintedIndented(w, list, mask, rest, level);
      var lines := Printed(list, mask, rest);
      if Wanted(list, mask, last.ns) {
        if last.level != level {
          assert visits[|rest|] == last && HasLineAbove(w, visits, |rest|);
          var j: nat :| j < |rest| && LineAbove(w, visits, j, |rest|);
          AboveIsPrinted(w, list, mask, rest, last, j);
        }
        IndentedSnoc(w, lines, last, level);
      } else {
        assert lines + [] == lines;
      }
    }
  }

  lemma IndentedSnoc(w: World, lines: seq<Visit>, last: Visit, level: int)
    requires Indented(w, lines, level)
    requires last.level != level ==> last.level > level && HasLineAbove(w, lines + [last], |lines|)
    ensures Indented(w, lines + [last], level)
  {
    hide HasLineAbove;
    var all := lines + [last];
    forall i | 0 <= i < |all| && all[i].level != level ensures all[i].level > level && HasLineAbove(w, all, i) {
      if i < |lines| {
        AboveInFront(w, lines, [last], i);
      }
    }
  }

  // ---------------------------------------------------------- the program

  method DisplayNamespaceTree(ghost w: World, list: NsList, ns: NsId, level: int, mask: set<NsType>)
    returns (lines: seq<Visit>)
    requires Forest(w, list, {}) && ns in list
    ensures lines == Printed(list, mask, Walk(w, list, ns, level))
    ensures Typed(w) ==> Indented(w, lines, level)
    ensures forall v | v in lines :: v.level >= level && (v.level == level ==> v.ns == ns)
    ensures Wanted(list, mask, ns) ==> lines != [] && lines[0] == Visit(ns, level)
    decreases Room(w, ns)
  {
    lines := [];
    if list[ns].nsType == User || list[ns].nsType in mask {
      lines := [Visit(ns, level)];
    }
    var kids := list[ns].children;
    ghost var top := [Visit(ns, level)];
    assert top[..0] == [] && lines == Printed(list, mask, top);
    for i := 0 to |kids|
      invariant lines == Printed(list, mask, top + WalkAll(w, list, ns, kids[..i], level + 1))
    {
      ChildHasLessRoom(w, list, ns, kids[i]);
      var below := DisplayNamespaceTree(w, list, kids[i], level + 1, mask);
      OneSubtreeMore(w, list, ns, i, level + 1, mask, top);
      lines := lines + below;
    }
    assert kids[..|kids|] == kids;
    TreeReadsBack(w, list, ns, level, mask);
  }

  lemma {:induction false} TreeReadsBack(w: World, list: NsList, ns: NsId, level: int, mask: set<NsType>)
    requires Forest(w, list, {}) && ns in list
    ensures var lines := Printed(list, mask, Walk(w, list, ns, level));
            && (Typed(w) ==> Indented(w, lines, level))
            && (forall v | v in lines :: v.level >= level && (v.level == level ==> v.ns == ns))
            && (Wanted(list, mask, ns) ==> lines != [] && lines[0] == Visit(ns, level))
  {
    var visits := Walk(w, list, ns, level);
    WalkIndented(w, list, ns, level);
    hide Forest, Walk, Indented;
    PrintedIsIn(list, mask, visits);
    if Wanted(list, mask, ns) {
      PrintedAt(list, mask, visits, 0);
      assert visits[..0] == [];
    }
    if Typed(w) {
      PrintedIndented(w, list, mask, visits, level);
    }
  }

  /** Everything at or below the first, and then everything at or below the second. */
  ghost predicate TreeThenTree(w: World, list: NsList, lines: seq<Visit>, first: NsId, second: NsId)
    requires Forest(w, list, {})
  {
    exists k :: 0 <= k <= |lines|
      && (forall v | v in lines[..k] :: v.ns in list && first in Chain(w, v.ns))
      && (forall v | v in lines[k..] :: v.ns in list && second in list && second in Chain(w, v.ns))
  }

  lemma {:induction false} PrintedBelow(w: World, list: NsList, ns: NsId, level: int, mask: set<NsType>)
    requires Forest(w, list, {}) && ns in list
    ensures forall v | v in Printed(list, mask, Walk(w, list, ns, level)) :: v.ns in list && ns in Chain(w, v.ns)
  {
    var visits := Walk(w, list, ns, level);
    PrintedIsIn(list, mask, visits);
    hide Forest, Walk, Chain;
    forall v | v in visits ensures v.ns in list && ns in Chain(w, v.ns) {
      WalkVisitsOnce(w, list, ns, level, v);
      assert v in multiset(visits);
    }
  }

  lemma {:induction false} DisplayReadsBack(w: World, list: NsList, rootNS: NsId, mask: set<NsType>)
    requires Forest(w, list, {}) && rootNS in list
    ensures var lines := Printed(list, mask, Displayed(w, list, rootNS));
            TreeThenTree(w, list, lines, rootNS, INVISIBLE) && (Typed(w) ==> Indented(w, lines, 0))
  {
    var lines := Printed(list, mask, Displayed(w, list, rootNS));
    var first := Printed(list, mask, Walk(w, list, rootNS, 0));
    TreeReadsBack(w, list, rootNS, 0, mask);
    PrintedBelow(w, list, rootNS, 0, mask);
    hide Walk, Indented, Chain, Printed;
    var second := [];
    if INVISIBLE in list {
      second := Printed(list, mask, Walk(w, list, INVISIBLE, 0));
      PrintedConcat(list, mask, Walk(w, list, rootNS, 0), Walk(w, list, INVISIBLE, 0));
      TreeReadsBack(w, list, INVISIBLE, 0, mask);
      PrintedBelow(w, list, INVISIBLE, 0, mask);
      if Typed(w) {
        IndentedConcat(w, first, second, 0);
      }
    } else {
      assert Walk(w, list, rootNS, 0) + [] == Walk(w, list, rootNS, 0);
    }
    assert lines == first + second;
    assert lines[..|first|] == first && lines[|first|..] == second;
  }

  /** The tree of the topmost namespace and the tree of the special entry, or
      the tree asked for. None is a lookup of a namespace not in the list, which
      the program does not survive. */
  method DisplayNamespaceHierarchies(ghost w: World, list: NsList, rootNS: NsId, subtree: Option<NsId>,
      mask: set<NsType>)
    returns (lines: Option<seq<Visit>>)
    requires Forest(w, list, {})
    ensures lines.None? <==> (if subtree.Some? then subtree.value else rootNS) !in list
    ensures lines.Some? && subtree.None? ==> lines.value == Printed(list, mask, Displayed(w, list, rootNS))
    ensures lines.Some? && subtree.Some? ==> lines.value == Printed(list, mask, Walk(w, list, subtree.value, 0))
    ensures lines.Some? && Typed(w) ==> Indented(w, lines.value, 0)
    ensures lines.Some? && subtree.None? ==> TreeThenTree(w, list, lines.value, rootNS, INVISIBLE)
    ensures lines.Some? && subtree.Some? ==>
              forall v | v in lines.value :: v.ns in list && subtree.value in Chain(w, v.ns)
  {
    if subtree.None? {
      if rootNS !in list {
        return None;
      }
      var shown := DisplayNamespaceTree(w, list, rootNS, 0, mask);
      if INVISIBLE in list {
        var more := DisplayNamespaceTree(w, list, INVISIBLE, 0, mask);
        PrintedConcat(list, mask, Walk(w, list, rootNS, 0), Walk(w, list, INVISIBLE, 0));
        shown := shown + more;
      } else {
        assert Displayed(w, list, rootNS) == Walk(w, list, rootNS, 0);
      }
      DisplayReadsBack(w, list, rootNS, mask);
      return Some(shown);
    }
    if subtree.value !in list {
      return None;
    }
    var shown := DisplayNamespaceTree(w, list, subtree.value, 0, mask);
    PrintedBelow(w, list, subtree.value, 0, mask);
    return Some(shown);
  }

  ghost function Displayed(w: World, list: NsList, rootNS: NsId): seq<Visit>
    requires Forest(w, list, {}) && rootNS in list
  {
    Walk(w, list, rootNS, 0) + if INVISIBLE in list then Walk(w, list, INVISIBLE, 0) else []
  }

  // ------------------------------------------- what a subtree's walk visits

  lemma {:induction false} ChainGoesUp(w: World, n: NsId, a: NsId)
    requires Proper(w) && (n == INVISIBLE || n in w.files) && a in Chain(w, n)
    ensures a == INVISIBLE || a in w.files
    ensures a != n ==> Depth(w, a) < Depth(w, n)
    decreases if n in w.files then w.rank[n] + 1 else 0
  {
    if a != n {
      ChainGoesUp(w, UpKey(w, n).value, a);
    }
  }

  /** Two keys at the same height above n are the same. */
  lemma {:induction false} ChainIsALine(w: World, n: NsId, a: NsId, b: NsId)
    requires Proper(w) && (n == INVISIBLE || n in w.files) && a in Chain(w, n) && b in Chain(w, n)
    requires (a == INVISIBLE || a in w.files) && (b == INVISIBLE || b in w.files)
    requires Depth(w, a) == Depth(w, b)
    ensures a == b
    decreases if n in w.files then w.rank[n] + 1 else 0
  {
    ChainGoesUp(w, n, a);
    ChainGoesUp(w, n, b);
    if a != n && b != n {
      ChainIsALine(w, UpKey(w, n).value, a, b);
    }
  }

  /** n is strictly below p exactly if it is in the subtree of one of p's children. */
  lemma {:induction false} BelowThroughChild(w: World, list: NsList, p: NsId, n: NsId)
    requires Forest(w, list, {}) && p in list && n in list
    ensures n != p && p in Chain(w, n) <==> exists k | k in list[p].children :: k in Chain(w, n)
    decreases if n in w.files then w.rank[n] + 1 else 0
  {
    if n in w.files && UpKey(w, n).Some? {
      var up := UpKey(w, n).value;
      assert Linked(w, list, {}, n);
      assert n in Chain(w, n);
      BelowThroughChild(w, list, p, up);
      assert up == p ==> n in list[p].children;
    }
    forall k | k in list[p].children && k in Chain(w, n) ensures n != p && p in Chain(w, n) {
      ChildHasLessRoom(w, list, p, k);
      OnChain(w, n, k, p);
      ChainGoesUp(w, n, k);
    }
  }

  lemma {:induction false} OnChain(w: World, n: NsId, k: NsId, p: NsId)
    requires Proper(w) && (n == INVISIBLE || n in w.files) && k in Chain(w, n) && k in w.files
    requires k != INVISIBLE && UpKey(w, k) == Some(p)
    ensures p in Chain(w, n)
    decreases if n in w.files then w.rank[n] + 1 else 0
  {
    if n != k {
      OnChain(w, UpKey(w, n).value, k, p);
    } else {
      assert p in Chain(w, p);
    }
  }

  /** How often the walk from ns visits n at level l. */
  ghost function Expected(w: World, list: NsList, ns: NsId, level: int, v: Visit): nat
    requires Forest(w, list, {}) && ns in list
  {
    if v.ns in list && ns in Chain(w, v.ns) && v.level == level + Depth(w, v.ns) - Depth(w, ns) then 1 else 0
  }

  /** Every namespace at or below ns is visited once, as much deeper than ns as
      its depth says, and nothing else is visited. */
  lemma {:induction false} WalkVisitsOnce(w: World, list: NsList, ns: NsId, level: int, v: Visit)
    requires Forest(w, list, {}) && ns in list
    ensures multiset(Walk(w, list, ns, level))[v] == Expected(w, list, ns, level, v)
    decreases Room(w, ns), 1, 0
  {
    WalkAllVisitsOnce(w, list, ns, list[ns].children, level + 1, v);
    if v.ns in list {
      BelowThroughChild(w, list, ns, v.ns);
      if v.ns == ns {
        assert ns in Chain(w, ns);
      }
    }
  }

  ghost predicate BelowOneOf(w: World, kids: seq<NsId>, n: NsId)
    requires Proper(w) && (n == INVISIBLE || n in w.files)
  {
    exists k | k in kids :: k in Chain(w, n)
  }

  lemma {:induction false} BelowSnoc(w: World, rest: seq<NsId>, last: NsId, n: NsId)
    requires Proper(w) && (n == INVISIBLE || n in w.files)
    ensures BelowOneOf(w, rest + [last], n) <==> BelowOneOf(w, rest, n) || last in Chain(w, n)
  {
    hide Proper, Chain;
    assert forall k :: k in rest + [last] <==> k in rest || k == last;
  }

  lemma {:induction false} ChildDepth(w: World, list: NsList, ns: NsId, child: NsId)
    requires Forest(w, list, {}) && ns in list && child in list[ns].children
    ensures child in list && child in w.files && Depth(w, child) == Depth(w, ns) + 1
  {
    ChildHasLessRoom(w, list, ns, child);
  }

  lemma {:induction false} WalkAllVisitsOnce(w: World, list: NsList, ns: NsId, kids: seq<NsId>, level: int, v: Visit)
    requires Forest(w, list, {}) && ns in list && NoDup(kids)
    requires forall k | k in kids :: k in list[ns].children
    ensures multiset(WalkAll(w, list, ns, kids, level))[v]
         == if v.ns in list && BelowOneOf(w, kids, v.ns) && v.level == level + Depth(w, v.ns) - Depth(w, ns) - 1
            then 1 else 0
    decreases Room(w, ns), 0, |kids|
  {
    assert Proper(w) && (v.ns in list ==> v.ns == INVISIBLE || v.ns in w.files);
    assert ns == INVISIBLE || ns in w.files;
    hide Forest, Proper, Chain, Depth;
    if kids != [] {
      var rest, last := kids[..|kids| - 1], kids[|kids| - 1];
      assert kids == rest + [last];
      ChildHasLessRoom(w, list, ns, last);
      ChildDepth(w, list, ns, last);
      WalkAllVisitsOnce(w, list, ns, rest, level, v);
      WalkVisitsOnce(w, list, last, level, v);
      if v.ns in list {
        BelowSnoc(w, rest, last, v.ns);
        if last in Chain(w, v.ns) {
          SubtreesAreApart(w, list, ns, rest, last, v.ns);
        }
      }
    }
  }

  lemma {:induction false} SubtreesAreApart(w: World, list: NsList, ns: NsId, kids: seq<NsId>, other: NsId, n: NsId)
    requires Forest(w, list, {}) && ns in list && n in list && other in list[ns].children && other !in kids
    requires (forall k | k in kids :: k in list[ns].children) && other in Chain(w, n)
    ensures !BelowOneOf(w, kids, n)
  {
    ChildHasLessRoom(w, list, ns, other);
    forall k | k in kids ensures k !in Chain(w, n) {
      ChildHasLessRoom(w, list, ns, k);
      if k in Chain(w, n) {
        ChainIsALine(w, n, k, other);
      }
    }
  }

  // -------------------------------------------------- what is displayed

  ghost predicate IsTop(w: World, list: NsList, n: NsId) {
    n in list && n in w.files && UpKey(w, n) == None
  }

  /** Every recorded namespace once, at its depth, and nothing else. */
  ghost predicate EachOnce(w: World, list: NsList, visits: seq<Visit>)
    requires Forest(w, list, {})
  {
    forall v: Visit :: multiset(visits)[v] == if v.ns in list && v.level == Depth(w, v.ns) then 1 else 0
  }

  /** A chain ends at a topmost namespace or at the special entry, not both. */
  lemma {:induction false} ChainEnd(w: World, list: NsList, n: NsId) returns (top: NsId)
    requires Forest(w, list, {}) && n in list
    ensures top in list && top in Chain(w, n) && Depth(w, top) == 0
    ensures top == INVISIBLE || IsTop(w, list, top)
    ensures forall t | IsTop(w, list, t) || (t == INVISIBLE && t in list) :: t in Chain(w, n) <==> t == top
    decreases if n in w.files then w.rank[n] + 1 else 0
  {
    if n == INVISIBLE || UpKey(w, n).None? {
      top := n;
    } else {
      assert Linked(w, list, {}, n);
      top := ChainEnd(w, list, UpKey(w, n).value);
    }
  }

  lemma DisplayedCount(w: World, list: NsList, rootNS: NsId, v: Visit)
    requires Forest(w, list, {}) && rootNS in list
    ensures multiset(Displayed(w, list, rootNS))[v]
         == Expected(w, list, rootNS, 0, v) + if INVISIBLE in list then Expected(w, list, INVISIBLE, 0, v) else 0
  {
    hide Forest, Expected, Walk;
    WalkVisitsOnce(w, list, rootNS, 0, v);
    if INVISIBLE in list {
      WalkVisitsOnce(w, list, INVISIBLE, 0, v);
    }
  }

  lemma CompleteIfOneTop(w: World, list: NsList, rootNS: NsId)
    requires Forest(w, list, {}) && IsTop(w, list, rootNS) && forall t | IsTop(w, list, t) :: t == rootNS
    ensures EachOnce(w, list, Displayed(w, list, rootNS))
  {
    forall v: Visit
      ensures multiset(Displayed(w, list, rootNS))[v] == if v.ns in list && v.level == Depth(w, v.ns) then 1 else 0
    {
      DisplayedCount(w, list, rootNS, v);
      if v.ns in list {
        var top := ChainEnd(w, list, v.ns);
      }
    }
  }

  /** The display shows every recorded namespace exactly once, at its depth,
      exactly if a topmost namespace was met and no second one was. */
  lemma DisplayIsComplete(w: World, list: NsList, rootNS: NsId)
    requires Forest(w, list, {}) && RootRight(w, list, rootNS, {}) && rootNS in list
    ensures EachOnce(w, list, Displayed(w, list, rootNS))
       <==> rootNS != INVISIBLE && forall t | IsTop(w, list, t) :: t == rootNS
  {
    var visits := Displayed(w, list, rootNS);
    if rootNS == INVISIBLE {
      assert INVISIBLE in Chain(w, INVISIBLE);
      DisplayedCount(w, list, rootNS, Visit(INVISIBLE, 0));
      assert multiset(visits)[Visit(INVISIBLE, 0)] == 2;
    } else if t :| IsTop(w, list, t) && t != rootNS {
      assert Chain(w, t) == {t} && Depth(w, t) == 0;
      DisplayedCount(w, list, rootNS, Visit(t, 0));
      assert multiset(visits)[Visit(t, 0)] == 0;
    } else {
      CompleteIfOneTop(w, list, rootNS);
    }
  }

  const NET_NS := NsId(1, 1)
  const HIDDEN_OWNER := World(map[NET_NS := NsFile(Net, 0, None)], false, map[NET_NS := 0], 1)
  const ONE_MEMBER := map[INVISIBLE := Attribs(User, [], [NET_NS], 0), NET_NS := Attribs(Net, [7], [], 0)]

  lemma ExampleForest()
    ensures Forest(HIDDEN_OWNER, ONE_MEMBER, {}) && RootRight(HIDDEN_OWNER, ONE_MEMBER, INVISIBLE, {})
  {
    assert UpKey(HIDDEN_OWNER, NET_NS) == Some(INVISIBLE);
    assert forall n :: Linked(HIDDEN_OWNER, ONE_MEMBER, {}, n) <==> n == NET_NS;
  }

  lemma ExampleBuilt()
    ensures Built(HIDDEN_OWNER, [Member(NET_NS, 7)], ONE_MEMBER)
  {
    ExampleForest();
    var w, scan := HIDDEN_OWNER, [Member(NET_NS, 7)];
    assert Chain(w, INVISIBLE) == {INVISIBLE} && Chain(w, NET_NS) == {NET_NS, INVISIBLE};
    assert scan == [] + [Member(NET_NS, 7)];
    PidsSnoc([], Member(NET_NS, 7), NET_NS);
    PidsSnoc([], Member(NET_NS, 7), INVISIBLE);
    hide Forest, Chain;
    assert forall m :: m in scan <==> m == Member(NET_NS, 7);
    assert Recorded(w, scan) == ONE_MEMBER.Keys;
  }

  /** The least case that is not complete: a network namespace whose owner is not
      visible, with one process in it. The special entry is displayed twice. */
  lemma SpecialEntryTwiceExample()
    ensures Built(HIDDEN_OWNER, [Member(NET_NS, 7)], ONE_MEMBER)
    ensures RootRight(HIDDEN_OWNER, ONE_MEMBER, INVISIBLE, {})
    ensures var visits := Displayed(HIDDEN_OWNER, ONE_MEMBER, INVISIBLE);
            multiset(visits)[Visit(INVISIBLE, 0)] == 2 && !EachOnce(HIDDEN_OWNER, ONE_MEMBER, visits)
  {
    ExampleBuilt();
    ExampleForest();
    assert INVISIBLE in Chain(HIDDEN_OWNER, INVISIBLE);
    var v := Visit(INVISIBLE, 0);
    WalkVisitsOnce(HIDDEN_OWNER, ONE_MEMBER, INVISIBLE, 0, v);
    var tree := Walk(HIDDEN_OWNER, ONE_MEMBER, INVISIBLE, 0);
    assert multiset(tree)[v] == 1;
    assert Displayed(HIDDEN_OWNER, ONE_MEMBER, INVISIBLE) == tree + tree;
    DisplayIsComplete(HIDDEN_OWNER, ONE_MEMBER, INVISIBLE);
  }

  /** Only one namespace has no visible parent or, being a user namespace, owner. */
  ghost predicate OneTop(w: World) {
    forall a, b | a in w.files && b in w.files && UpKey(w, a).None? && UpKey(w, b).None? :: a == b
  }

  lemma {:induction false} UserChainHasTop(w: World, list: NsList, n: NsId) returns (top: NsId)
    requires Forest(w, list, {}) && Typed(w) && n in list && n in w.files
    requires w.pidns || w.files[n].nsType == User
    ensures IsTop(w, list, top)
    decreases w.rank[n]
  {
    if UpKey(w, n).None? {
      top := n;
    } else {
      assert Linked(w, list, {}, n);
      top := UserChainHasTop(w, list, UpKey(w, n).value);
    }
  }

  /** After a scan that met a user namespace (or any at all, for the PID
      hierarchy), every recorded namespace is printed once, at its depth, if it
      is a user namespace or of a type asked for, and nothing else is. */
  lemma {:induction false} ScanIsDisplayed(w: World, scan: seq<Member>, list: NsList, rootNS: NsId, m: Member,
      mask: set<NsType>)
    requires Built(w, scan, list) && RootRight(w, list, rootNS, {}) && Typed(w) && OneTop(w)
    requires m in scan && (w.pidns || w.files[m.ns].nsType == User)
    ensures rootNS in list
    ensures EachWantedOnce(w, list, mask, Printed(list, mask, Displayed(w, list, rootNS)))
  {
    assert m.ns in Chain(w, m.ns) && Forest(w, list, {});
    SomeTopMeansRoot(w, list, rootNS, m.ns);
    DisplayIsComplete(w, list, rootNS);
    hide *;
    WantedOnce(w, list, mask, Displayed(w, list, rootNS));
  }

  lemma SomeTopMeansRoot(w: World, list: NsList, rootNS: NsId, n: NsId)
    requires Forest(w, list, {}) && RootRight(w, list, rootNS, {}) && Typed(w) && OneTop(w)
    requires n in list && n in w.files && (w.pidns || w.files[n].nsType == User)
    ensures rootNS in list && rootNS != INVISIBLE && forall t | IsTop(w, list, t) :: t == rootNS
  {
    var top := UserChainHasTop(w, list, n);
    assert Linked(w, list, {}, top);
  }

  ghost predicate EachWantedOnce(w: World, list: NsList, mask: set<NsType>, lines: seq<Visit>)
    requires Forest(w, list, {})
  {
    forall v :: multiset(lines)[v]
      == if v.ns in list && (v.ns == INVISIBLE || w.files[v.ns].nsType in mask + {User}) && v.level == Depth(w, v.ns)
         then 1 else 0
  }

  lemma {:induction false} WantedOnce(w: World, list: NsList, mask: set<NsType>, visits: seq<Visit>)
    requires Forest(w, list, {}) && EachOnce(w, list, visits)
    ensures EachWantedOnce(w, list, mask, Printed(list, mask, visits))
  {
    var lines := Printed(list, mask, visits);
    forall v: Visit
      ensures multiset(lines)[v] == if Wanted(list, mask, v.ns) && v.level == Depth(w, v.ns) then 1 else 0
      ensures Wanted(list, mask, v.ns)
          <==> v.ns in list && (v.ns == INVISIBLE || w.files[v.ns].nsType in mask + {User})
    {
      PrintedCount(list, mask, visits, v);
    }
  }
}
