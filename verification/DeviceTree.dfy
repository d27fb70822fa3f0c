// Model of the device registry: dev/common/devicelist.c and the tree walk of
// dev/common/devicelist_print.c.
module DeviceTree {
  const CAPACITY := 40

  // ---------- a forest as parent numbers ----------

  // Devices are numbered as created; -1 means no parent. A parent is created first.
  ghost predicate Forest(parents: seq<int>) {
    forall i :: 0 <= i < |parents| ==> -1 <= parents[i] < i
  }

  // The first device from a number on with parent p, or -1.
  function FirstFrom(parents: seq<int>, from: nat, p: int): (j: int)
    ensures j == -1 || (from <= j < |parents| && parents[j] == p)
    ensures forall k :: from <= k < (if j == -1 then |parents| else j) ==> parents[k] != p
    decreases |parents| - from
  {
    if from >= |parents| then -1
    else if parents[from] == p then from
    else FirstFrom(parents, from + 1, p)
  }

  function FirstChild(parents: seq<int>, i: int): (c: int)
    ensures c == -1 || (0 <= c < |parents| && parents[c] == i)
  {
    FirstFrom(parents, 0, i)
  }

  function NextSibling(parents: seq<int>, i: nat): (k: int)
    requires i < |parents|
    ensures k == -1 || (i < k < |parents| && parents[k] == parents[i] >= 0)
  {
    if parents[i] < 0 then -1 else FirstFrom(parents, i + 1, parents[i])
  }

  lemma FirstFromAppend(parents: seq<int>, x: int, from: nat, p: int)
    requires from <= |parents|
    ensures FirstFrom(parents + [x], from, p) ==
              if FirstFrom(parents, from, p) >= 0 then FirstFrom(parents, from, p)
              else if x == p then |parents| else -1
  {
    var all := parents + [x];
    var j, k := FirstFrom(parents, from, p), FirstFrom(all, from, p);
    assert forall m :: 0 <= m < |parents| ==> all[m] == parents[m];
    assert all[|parents|] == x;
  }

  lemma FirstChildAppend(parents: seq<int>, p: int, i: nat)
    ensures FirstChild(parents + [p], i) ==
              if FirstChild(parents, i) >= 0 then FirstChild(parents, i) else if p == i then |parents| else -1
  {
    FirstFromAppend(parents, p, 0, i);
  }

  lemma NextSiblingAppend(parents: seq<int>, p: int, i: nat)
    requires i < |parents|
    ensures NextSibling(parents + [p], i) ==
              if NextSibling(parents, i) >= 0 || parents[i] < 0 then NextSibling(parents, i)
              else if p == parents[i] then |parents| else -1
  {
    FirstFromAppend(parents, p, i + 1, parents[i]);
  }

  lemma OneLastChild(parents: seq<int>, i: nat, k: nat)
    requires i < |parents| && k < |parents| && parents[i] == parents[k] >= 0
    requires NextSibling(parents, i) < 0 && NextSibling(parents, k) < 0
    ensures i == k
  {
  }

  lemma FirstChildFound(parents: seq<int>, p: int, i: nat)
    requires i < |parents| && parents[i] == p
    ensures FirstChild(parents, p) >= 0
  {
  }

  // ---------- the children chain ----------

  // The numbers met by following next from j.
  function Chain(parents: seq<int>, j: nat): seq<int>
    requires j < |parents|
    decreases |parents| - j
  {
    var k := NextSibling(parents, j);
    [j] + if k < 0 then [] else Chain(parents, k)
  }

  function Children(parents: seq<int>, p: nat): seq<int> {
    var c := FirstChild(parents, p);
    if c < 0 then [] else Chain(parents, c)
  }

  lemma {:induction false} ChainFromSibling(parents: seq<int>, j: nat)
    requires Forest(parents) && j < |parents| && parents[j] >= 0
    ensures forall k :: k in Chain(parents, j) <==> j <= k < |parents| && parents[k] == parents[j]
    ensures forall a, b :: 0 <= a < b < |Chain(parents, j)| ==> Chain(parents, j)[a] < Chain(parents, j)[b]
    decreases |parents| - j
  {
    var n := NextSibling(parents, j);
    if n < 0 {
    } else {
      ChainFromSibling(parents, n);
    }
  }

  // A device's chain is exactly its children, in the order of creation.
  lemma ChainIsChildren(parents: seq<int>, p: nat)
    requires Forest(parents) && p < |parents|
    ensures var chain := Children(parents, p);
            && (forall k :: k in chain <==> 0 <= k < |parents| && parents[k] == p)
            && (forall a, b :: 0 <= a < b < |chain| ==> chain[a] < chain[b])
  {
    if FirstChild(parents, p) >= 0 {
      ChainFromSibling(parents, FirstChild(parents, p));
    }
  }

  // ---------- the walk ----------

  datatype Visit = Visit(device: int, depth: nat)

  // A device, then its children's subtrees in order.
  function Preorder(parents: seq<int>, i: nat, depth: nat): seq<Visit>
    requires Forest(parents) && i < |parents|
    decreases |parents| - i, 0
  {
    [Visit(i, depth)] + Siblings(parents, FirstChild(parents, i), depth + 1)
  }

  // The subtree of j, if there is one, and those of its later siblings.
  function Siblings(parents: seq<int>, j: int, depth: nat): seq<Visit>
    requires Forest(parents) && j < |parents| && (j >= 0 ==> parents[j] >= 0)
    decreases if j < 0 then 0 else |parents| - j, 1
  {
    if j < 0 then [] else Preorder(parents, j, depth) + Siblings(parents, NextSibling(parents, j), depth)
  }

  // x is i or one of its descendants.
  predicate Descends(parents: seq<int>, i: int, x: int)
    requires Forest(parents) && x < |parents|
    decreases x
  {
    x >= 0 && (x == i || Descends(parents, i, parents[x]))
  }

  // The child of p from which x descends, or -1.
  function Branch(parents: seq<int>, p: nat, x: int): (b: int)
    requires Forest(parents) && x < |parents|
    ensures b == -1 || (p < b <= x && parents[b] == p)
    decreases x
  {
    if x < 0 then -1 else if parents[x] == p then x else Branch(parents, p, parents[x])
  }

  lemma {:induction false} DescendsByBranch(parents: seq<int>, p: nat, x: int)
    requires Forest(parents) && x < |parents|
    ensures Descends(parents, p, x) <==> x == p || Branch(parents, p, x) >= 0
    decreases x
  {
    if x < 0 || x == p {
    } else {
      DescendsByBranch(parents, p, parents[x]);
    }
  }

  lemma {:induction false} DescendsBelow(parents: seq<int>, j: nat, x: int)
    requires Forest(parents) && x < |parents| && j < |parents| && parents[j] >= 0
    ensures Descends(parents, j, x) <==> Branch(parents, parents[j], x) == j
    ensures Descends(parents, j, x) ==> x >= j
    decreases x
  {
    if x < 0 || x == j {
    } else {
      DescendsBelow(parents, j, parents[x]);
    }
  }

  function Occurrences(visits: seq<Visit>, x: int): nat {
    if visits == [] then 0
    else (if visits[0].device == x then 1 else 0) + Occurrences(visits[1..], x)
  }

  lemma {:induction false} OccurrencesAppend(a: seq<Visit>, b: seq<Visit>, x: int)
    ensures Occurrences(a + b, x) == Occurrences(a, x) + Occurrences(b, x)
    decreases |a|
  {
    if a == [] {
      assert a + b == b;
    } else {
      assert (a + b)[1..] == a[1..] + b;
      OccurrencesAppend(a[1..], b, x);
    }
  }

  // Main result: the walk from i visits i and each descendant once, and nothing else.
  lemma {:induction false} VisitsSubtreeOnce(parents: seq<int>, i: nat, depth: nat, x: int)
    requires Forest(parents) && i < |parents| && x < |parents|
    ensures Occurrences(Preorder(parents, i, depth), x) == if Descends(parents, i, x) then 1 else 0
    decreases |parents| - i, 0
  {
    var c := FirstChild(parents, i);
    DescendsByBranch(parents, i, x);
    OccurrencesAppend([Visit(i, depth)], Siblings(parents, c, depth + 1), x);
    if c < 0 {
    } else {
      VisitsSiblingsOnce(parents, c, depth + 1, x);
    }
  }

  lemma {:induction false} VisitsSiblingsOnce(parents: seq<int>, j: nat, depth: nat, x: int)
    requires Forest(parents) && j < |parents| && parents[j] >= 0 && x < |parents|
    ensures Occurrences(Siblings(parents, j, depth), x) == if Branch(parents, parents[j], x) >= j then 1 else 0
    decreases |parents| - j, 1
  {
    var k := NextSibling(parents, j);
    VisitsSubtreeOnce(parents, j, depth, x);
    DescendsBelow(parents, j, x);
    OccurrencesAppend(Preorder(parents, j, depth), Siblings(parents, k, depth), x);
    if k < 0 {
    } else {
      VisitsSiblingsOnce(parents, k, depth, x);
    }
  }

  // Distance from the root above.
  function Level(parents: seq<int>, x: nat): nat
    requires Forest(parents) && x < |parents|
  {
    if parents[x] < 0 then 0 else Level(parents, parents[x]) + 1
  }

  predicate AtLevels(parents: seq<int>, visits: seq<Visit>, base: int)
    requires Forest(parents)
  {
    forall v :: v in visits ==> 0 <= v.device < |parents| && v.depth == base + Level(parents, v.device)
  }

  // The indentation is the distance from the start of the walk.
  lemma {:induction false} VisitsAtLevels(parents: seq<int>, i: nat, depth: nat)
    requires Forest(parents) && i < |parents|
    ensures AtLevels(parents, Preorder(parents, i, depth), depth - Level(parents, i))
    decreases |parents| - i, 0
  {
    var c := FirstChild(parents, i);
    if c < 0 {
    } else {
      SiblingsAtLevels(parents, c, depth + 1);
    }
  }

  lemma {:induction false} SiblingsAtLevels(parents: seq<int>, j: nat, depth: nat)
    requires Forest(parents) && j < |parents| && parents[j] >= 0
    ensures AtLevels(parents, Siblings(parents, j, depth), depth - Level(parents, j))
    decreases |parents| - j, 1
  {
    VisitsAtLevels(parents, j, depth);
    var k := NextSibling(parents, j);
    if k < 0 {
    } else {
      SiblingsAtLevels(parents, k, depth);
    }
  }

  // ---------- objects ----------

  class Device {
    var deviceClass: int
    var parent: Device?
    var children: Device?
    var next: Device?

    // As the zeroed static objects the callers pass.
    constructor ()
      ensures parent == null && children == null && next == null
    {
      deviceClass := 0;
      parent, children, next := null, null, null;
    }
  }

  function Pick(devices: seq<Device>, i: int): Device? {
    if 0 <= i < |devices| then devices[i] else null
  }

  function Shown(devices: seq<Device>, visits: seq<Visit>): seq<Line> {
    seq(|visits|, k requires 0 <= k < |visits| => Line(Pick(devices, visits[k].device), visits[k].depth))
  }

  lemma ShownAppend(devices: seq<Device>, a: seq<Visit>, b: seq<Visit>)
    ensures Shown(devices, a + b) == Shown(devices, a) + Shown(devices, b)
  {
  }

  datatype Line = Line(device: Device?, depth: nat)

  // Device i of nodes once d has joined the chain of device p, if any.
  ghost predicate Joined(nodes: seq<Device>, before: seq<int>, p: int, d: Device, i: nat)
    requires i < |nodes| == |before|
    reads nodes
  {
    && nodes[i].parent == Pick(nodes, before[i])
    && nodes[i].children == (if i == p && FirstChild(before, i) < 0 then d else Pick(nodes, FirstChild(before, i)))
    && nodes[i].next == (if 0 <= p == before[i] && NextSibling(before, i) < 0 then d else Pick(nodes, NextSibling(before, i)))
  }

  class DeviceList {
    const list: array<Device?>
    var count: nat
    ghost var devices: seq<Device>
    ghost var parents: seq<int>

    ghost function At(i: int): Device?
      reads this
    {
      Pick(devices, i)
    }

    ghost predicate Shape()
      reads this, list
    {
      && list.Length == CAPACITY && count <= CAPACITY
      && |devices| == |parents| == count && Forest(parents)
      && (forall i :: 0 <= i < count ==> list[i] == devices[i])
      && (forall i, j :: 0 <= i < j < count ==> devices[i] != devices[j])
    }

    ghost predicate Linked(i: nat)
      reads this, devices
      requires i < |devices| == |parents|
    {
      && devices[i].parent == At(parents[i])
      && devices[i].children == At(FirstChild(parents, i))
      && devices[i].next == At(NextSibling(parents, i))
    }

    ghost predicate Valid()
      reads this, list, devices
    {
      Shape() && forall i :: 0 <= i < count ==> Linked(i)
    }

    constructor ()
      ensures Valid() && devices == [] && fresh(list)
    {
      list := new Device?[CAPACITY](_ => null);
      count := 0;
      devices, parents := [], [];
    }

    // Appends to the chain of device p, which the loop walks to its end.
    method AddChild(parent: Device, ghost p: nat, d: Device)
      requires Valid() && p < count && devices[p] == parent && d !in devices
      modifies set i | 0 <= i < |devices| :: devices[i]
      ensures forall i :: 0 <= i < count ==> Joined(devices, parents, p, d, i)
      ensures forall i :: 0 <= i < count ==> devices[i].deviceClass == old(devices[i].deviceClass)
    {
      hide FirstChild, NextSibling;
      assert Linked(p);
      if parent.children == null {
        parent.children := d;
        forall i | 0 <= i < count ensures Joined(devices, parents, p, d, i) {
          assert old(Linked(i));
          if parents[i] == p { FirstChildFound(parents, p, i); }
        }
        return;
      }
      var c := parent.children;
      ghost var k: nat := FirstChild(parents, p);
      while c.next != null
        invariant k < count && c == devices[k] && parents[k] == p
        decreases count - k
      {
        assert Linked(k);
        c := c.next;
        k := NextSibling(parents, k);
      }
      assert Linked(k);
      c.next := d;
      FirstChildFound(parents, p, k);
      forall i | 0 <= i < count ensures Joined(devices, parents, p, d, i) {
        assert old(Linked(i));
        if parents[i] == p && NextSibling(parents, i) < 0 { OneLastChild(parents, i, k); }
      }
    }

    // The number of a registered device, or -1 for none.
    ghost function NumberOf(d: Device?): (p: int)
      reads this
      requires d == null || d in devices
      ensures p == -1 || 0 <= p < |devices|
      ensures At(p) == d
    {
      if d == null then -1
      else
        var p :| 0 <= p < |devices| && devices[p] == d; p
    }

    method CreateDevice(parent: Device?, d: Device, deviceClass: int)
      requires Valid() && count < CAPACITY
      requires parent == null || parent in devices
      requires d !in devices && d.children == null && d.next == null
      modifies this, list, d, devices
      ensures Valid() && devices == old(devices) + [d]
      ensures parents == old(parents) + [old(NumberOf(parent))]
      ensures d.deviceClass == deviceClass
      ensures forall e :: e in old(devices) ==> e.deviceClass == old(e.deviceClass)
    {
      hide FirstChild, NextSibling;
      ghost var p := NumberOf(parent);
      d.deviceClass := deviceClass;
      d.parent := parent;
      if parent != null {
        AddChild(parent, p, d);
      } else {
        forall i | 0 <= i < count ensures Joined(devices, parents, p, d, i) { assert old(Linked(i)); }
      }
      Register(d, p);
    }

    // Enters d, already linked, in the table.
    method Register(d: Device, ghost p: int)
      requires Shape() && count < CAPACITY && -1 <= p < count && d !in devices
      requires forall i :: 0 <= i < |devices| ==> Joined(devices, parents, p, d, i)
      requires d.parent == Pick(devices, p) && d.children == null && d.next == null
      modifies this, list
      ensures Valid() && devices == old(devices) + [d] && parents == old(parents) + [p]
    {
      hide FirstChild, NextSibling;
      ghost var before, nodes := parents, devices;
      list[count] := d;
      count := count + 1;
      devices := devices + [d];
      parents := parents + [p];
      forall i | 0 <= i < |nodes| ensures Linked(i) {
        assert Joined(nodes, before, p, d, i);
        Relinked(nodes, before, p, d, i);
      }
      LastIsLinked(nodes, before, p, d);
    }

    lemma Relinked(nodes: seq<Device>, before: seq<int>, p: int, d: Device, i: nat)
      requires devices == nodes + [d] && parents == before + [p] && i < |nodes| == |before|
      requires Forest(before) && -1 <= p < |nodes| && Joined(nodes, before, p, d, i)
      ensures Linked(i)
    {
      hide FirstChild, NextSibling;
      FirstChildAppend(before, p, i);
      NextSiblingAppend(before, p, i);
    }

    lemma LastIsLinked(nodes: seq<Device>, before: seq<int>, p: int, d: Device)
      requires devices == nodes + [d] && parents == before + [p] && |nodes| == |before|
      requires Forest(before) && -1 <= p < |nodes|
      requires d.parent == Pick(nodes, p) && d.children == null && d.next == null
      ensures Linked(|nodes|)
    {
      FirstFromAppend(before, p, 0, |nodes|);
    }

    // The earliest device of the class.
    method FindDevice(deviceClass: int) returns (r: Device?)
      requires Valid()
      ensures r == null ==> forall i :: 0 <= i < |devices| ==> devices[i].deviceClass != deviceClass
      ensures r != null ==> exists k :: 0 <= k < |devices| && r == devices[k] && r.deviceClass == deviceClass
                              && forall i :: 0 <= i < k ==> devices[i].deviceClass != deviceClass
    {
      for i := 0 to count
        invariant forall j :: 0 <= j < i ==> devices[j].deviceClass != deviceClass
      {
        var d := list[i];
        assert d == devices[i];
        if d.deviceClass == deviceClass {
          return d;
        }
      }
      return null;
    }

    // devicelist_print, with one line for each device it prints. It follows pointers
    // only; i is the number of d.
    method PrintTree(d: Device?, ghost i: int, depth: nat) returns (lines: seq<Line>)
      requires Valid() && i < count && d == At(i)
      ensures lines == if i < 0 then [] else Shown(devices, Preorder(parents, i, depth))
      decreases count - i
    {
      hide Shown, Preorder, Siblings, FirstFrom;
      if d == null {
        return [];
      }
      assert Linked(i);
      PreorderIs(i, depth);
      lines := [Line(d, depth)];
      var p := d.children;
      ghost var k, done := FirstChild(parents, i), [Visit(i, depth)];
      while p != null
        invariant k == -1 || (i < k < count && parents[k] == i)
        invariant p == At(k)
        invariant done + Siblings(parents, k, depth + 1) == Preorder(parents, i, depth)
        invariant lines == Shown(devices, done)
        decreases if k < 0 then 0 else count - k
      {
        assert Linked(k);
        SiblingsIs(k, depth + 1);
        var more := PrintTree(p, k, depth + 1);
        ShownAppend(devices, done, Preorder(parents, k, depth + 1));
        lines := lines + more;
        done := done + Preorder(parents, k, depth + 1);
        p := p.next;
        k := NextSibling(parents, k);
      }
      SiblingsIs(k, depth + 1);
      assert done + [] == done;
    }

    lemma PreorderIs(i: nat, depth: nat)
      requires Forest(parents) && i < |devices| == |parents|
      ensures Preorder(parents, i, depth) == [Visit(i, depth)] + Siblings(parents, FirstChild(parents, i), depth + 1)
      ensures Shown(devices, [Visit(i, depth)]) == [Line(devices[i], depth)]
    {
    }

    lemma SiblingsIs(j: int, depth: nat)
      requires Forest(parents) && j < |parents| && (j >= 0 ==> parents[j] >= 0)
      ensures Siblings(parents, j, depth) ==
                if j < 0 then [] else Preorder(parents, j, depth) + Siblings(parents, NextSibling(parents, j), depth)
    {
    }
  }
}
