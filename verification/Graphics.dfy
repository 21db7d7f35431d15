// Graphs as linked lists of objects: copying and deleting a selection, and making a macro of it.
module Graphics {

  // INTEGER arithmetic wraps at 16 bits.
  function Int16(x: int): (r: int)
    ensures -0x8000 <= r < 0x8000 && (r - x) % 0x1_0000 == 0
  {
    (x + 0x8000) % 0x10000 - 0x8000
  }

  lemma BackAgain(x: int, d: int)
    requires -0x8000 <= x < 0x8000
    ensures Int16(Int16(x - d) + d) == x
  {
  }

  // What an object's method copies, besides its place: size, colour, and what its kind adds.
  datatype Shape = Shape(w: int, h: int, col: int, kind: int)

  class Object {
    var x: int
    var y: int
    var shape: Shape
    var selected: bool
    var marked: bool
    var next: Object?

    // A new object, made by the method of `from`, with a copy of what is in it.
    constructor Copy(from: Object)
      ensures x == from.x && y == from.y && shape == from.shape && !selected && !marked && next == null
    {
      x, y, shape, selected, marked, next := from.x, from.y, from.shape, false, false, null;
    }
  }

  // An object's state, apart from its links.
  datatype Item = Item(x: int, y: int, shape: Shape, selected: bool)

  function ItemOf(o: Object): Item
    reads o`x, o`y, o`shape, o`selected
  {
    Item(o.x, o.y, o.shape, o.selected)
  }

  function Items(s: seq<Object>): (r: seq<Item>)
    reads s`x, s`y, s`shape, s`selected
    ensures |r| == |s| && forall i :: 0 <= i < |s| ==> r[i] == ItemOf(s[i])
  {
    if s == [] then [] else [ItemOf(s[0])] + Items(s[1..])
  }

  lemma ItemIs(o: Object)
    ensures ItemOf(o) == Item(o.x, o.y, o.shape, o.selected)
  {
  }

  lemma ItemsCons(o: Object, s: seq<Object>)
    ensures Items([o] + s) == [ItemOf(o)] + Items(s)
  {
    assert ([o] + s)[1..] == s;
  }

  ghost predicate Distinct(s: seq<Object>) {
    forall i, j :: 0 <= i < j < |s| ==> s[i] != s[j]
  }

  // The objects of `s`, each once, are linked from `first` on.
  ghost predicate Linked(first: Object?, s: seq<Object>)
    reads s`next
  {
    && Distinct(s)
    && (if s == [] then first == null else first == s[0] && s[|s| - 1].next == null)
    && forall i, j :: 0 <= i && j == i + 1 < |s| ==> s[i].next == s[j]
  }

  function Picked(s: seq<Item>): seq<Item> {
    if s == [] then [] else (if s[0].selected then [s[0]] else []) + Picked(s[1..])
  }

  function Placed(i: Item, dx: int, dy: int, selected: bool): Item {
    Item(Int16(i.x + dx), Int16(i.y + dy), i.shape, selected)
  }

  // Each item, moved, in front of those before it.
  function Stacked(s: seq<Item>, dx: int, dy: int, selected: bool): seq<Item> {
    if s == [] then [] else Stacked(s[1..], dx, dy, selected) + [Placed(s[0], dx, dy, selected)]
  }

  lemma {:induction false} PickedAppend(s: seq<Item>, i: Item)
    ensures Picked(s + [i]) == Picked(s) + (if i.selected then [i] else [])
  {
    if s != [] {
      assert (s + [i])[1..] == s[1..] + [i];
      PickedAppend(s[1..], i);
    }
  }

  lemma {:induction false} StackedAppend(s: seq<Item>, i: Item, dx: int, dy: int, selected: bool)
    ensures Stacked(s + [i], dx, dy, selected) == [Placed(i, dx, dy, selected)] + Stacked(s, dx, dy, selected)
  {
    if s != [] {
      assert (s + [i])[1..] == s[1..] + [i];
      StackedAppend(s[1..], i, dx, dy, selected);
    }
  }

  predicate InRange(s: seq<Item>) {
    forall i :: 0 <= i < |s| ==> -0x8000 <= s[i].x < 0x8000 && -0x8000 <= s[i].y < 0x8000
  }

  // A macro taken out and put back at the same place: the selection, in its own order again.
  lemma {:induction false} OutAndBack(s: seq<Item>, x: int, y: int)
    requires InRange(s) && forall i :: 0 <= i < |s| ==> s[i].selected
    ensures Stacked(Stacked(s, -x, -y, false), x, y, true) == s
  {
    if s != [] {
      OutAndBack(s[1..], x, y);
      StackedAppend(Stacked(s[1..], -x, -y, false), Placed(s[0], -x, -y, false), x, y, true);
      BackAgain(s[0].x, x);
      BackAgain(s[0].y, y);
    }
  }

  lemma {:induction false} PickedSelected(s: seq<Item>)
    ensures forall i :: 0 <= i < |Picked(s)| ==> Picked(s)[i].selected && Picked(s)[i] in s
  {
    if s != [] {
      PickedSelected(s[1..]);
    }
  }

  // Where the selected objects are.
  function Places(s: seq<Object>): (at: seq<nat>)
    reads s`selected
    ensures forall i :: 0 <= i < |at| ==> at[i] < |s| && s[at[i]].selected
    ensures forall i, j :: 0 <= i < j < |at| ==> at[i] < at[j]
    ensures forall k :: 0 <= k < |s| && s[k].selected ==> k in at
  {
    if s == [] then [] else
      var n := |s| - 1;
      Places(s[..n]) + (if s[n].selected then [n] else [])
  }

  lemma {:induction false} PickedAt(s: seq<Object>)
    ensures |Picked(Items(s))| == |Places(s)|
    ensures forall i :: 0 <= i < |Places(s)| ==> Picked(Items(s))[i] == ItemOf(s[Places(s)[i]])
    decreases |s|
  {
    hide Picked, Items, ItemOf;
    if s == [] {
      NoItems(s);
    } else {
      var n := |s| - 1;
      PickedAt(s[..n]);
      PickedLast(s);
      var at, before := Places(s), Places(s[..n]);
      hide Places;
      forall i | 0 <= i < |at| ensures Picked(Items(s))[i] == ItemOf(s[at[i]]) {
        if i < |before| {
          assert at[i] == before[i] && s[..n][before[i]] == s[at[i]];
        }
      }
    }
  }

  lemma NoItems(s: seq<Object>)
    requires s == []
    ensures Picked(Items(s)) == []
  {
  }

  lemma PickedLast(s: seq<Object>)
    requires s != []
    ensures var n := |s| - 1;
      && Picked(Items(s)) == Picked(Items(s[..n])) + (if s[n].selected then [ItemOf(s[n])] else [])
      && Places(s) == Places(s[..n]) + (if s[n].selected then [n] else [])
  {
    hide Picked, Items;
    var n := |s| - 1;
    ItemsLast(s);
    PickedAppend(Items(s[..n]), ItemOf(s[n]));
  }

  lemma {:induction false} ItemsLast(s: seq<Object>)
    requires s != []
    ensures Items(s) == Items(s[..|s| - 1]) + [ItemOf(s[|s| - 1])]
    decreases |s|
  {
    hide ItemOf;
    if |s| > 1 {
      ItemsLast(s[1..]);
      assert s[1..][..|s| - 2] == s[..|s| - 1][1..];
    }
  }

  lemma {:induction false} StackedSize(s: seq<Item>, dx: int, dy: int, selected: bool)
    ensures |Stacked(s, dx, dy, selected)| == |s|
  {
    if s != [] {
      StackedSize(s[1..], dx, dy, selected);
    }
  }

  lemma {:induction false} StackedAt(s: seq<Item>, dx: int, dy: int, selected: bool, i: nat)
    requires i < |s|
    ensures |Stacked(s, dx, dy, selected)| == |s|
    ensures var c := Stacked(s, dx, dy, selected)[|s| - 1 - i];
      c.x == Int16(s[i].x + dx) && c.y == Int16(s[i].y + dy) && c.shape == s[i].shape && c.selected == selected
  {
    hide Int16;
    StackedSize(s, dx, dy, selected);
    StackedSize(s[1..], dx, dy, selected);
    if i > 0 {
      StackedAt(s[1..], dx, dy, selected, i - 1);
    }
  }

  // Where an object is, modulo 2^16, and what it is like.
  predicate Stands(c: Object, x: int, y: int, shape: Shape, selected: bool)
    reads c
  {
    c.x == Int16(x) && c.y == Int16(y) && c.shape == shape && c.selected == selected
  }

  // The same of the objects that are stacked.
  lemma Landed(news: seq<Object>, s: seq<Item>, dx: int, dy: int, selected: bool)
    requires Items(news) == Stacked(s, dx, dy, selected)
    ensures |news| == |s| && forall i :: 0 <= i < |s| ==>
      Stands(news[|s| - 1 - i], s[i].x + dx, s[i].y + dy, s[i].shape, selected)
  {
    hide Stacked, Int16;
    StackedSize(s, dx, dy, selected);
    forall i | 0 <= i < |s| ensures Stands(news[|s| - 1 - i], s[i].x + dx, s[i].y + dy, s[i].shape, selected) {
      StackedAt(s, dx, dy, selected, i);
      assert Items(news)[|s| - 1 - i] == ItemOf(news[|s| - 1 - i]);
    }
  }

  class Graph {
    var first: Object?
    var sel: Object?
    ghost var objs: seq<Object>

    ghost predicate Valid()
      reads this, objs`next
    {
      Linked(first, objs)
    }

    constructor ()
      ensures Valid() && objs == []
    {
      first, sel, objs := null, null, [];
    }

    // Put an object in front, selected.
    method Add(obj: Object)
      requires Valid() && obj !in objs
      modifies this, obj`next, obj`selected, obj`marked
      ensures Valid() && objs == [obj] + old(objs) && sel == obj
      ensures obj.selected && !obj.marked
    {
      obj.marked, obj.selected, obj.next := false, true, first;
      first, sel := obj, obj;
      objs := [obj] + objs;
    }
  }

  lemma NextOf(first: Object?, s: seq<Object>, i: nat)
    requires Linked(first, s) && i < |s|
    ensures s[i].next == (if i + 1 < |s| then s[i + 1] else null) && forall k :: 0 <= k < |s| && k != i ==> s[k] != s[i]
  {
  }

  // A new object like `obj`, elsewhere.
  method Duplicate(obj: Object, dx: int, dy: int) returns (new_: Object)
    ensures fresh(new_) && ItemOf(new_) == Placed(ItemOf(obj), dx, dy, false)
  {
    new_ := new Object.Copy(obj);
    new_.x := Int16(new_.x + dx);
    new_.y := Int16(new_.y + dy);
  }

  // One more item taken, and put on top of the others.
  lemma OneMore(was: seq<Item>, i: nat, dx: int, dy: int, selected: bool)
    requires i < |was|
    ensures Stacked(Picked(was[..i + 1]), dx, dy, selected)
         == (if was[i].selected then [Placed(was[i], dx, dy, selected)] else []) + Stacked(Picked(was[..i]), dx, dy, selected)
  {
    assert was[..i + 1] == was[..i] + [was[i]];
    PickedAppend(was[..i], was[i]);
    if was[i].selected {
      StackedAppend(Picked(was[..i]), was[i], dx, dy, selected);
    } else {
      assert Picked(was[..i]) + [] == Picked(was[..i]);
    }
  }

  // A selected object hands its selection on to a copy in front of `Gd`.
  method AddCopy(Gd: Graph, obj: Object, dx: int, dy: int) returns (copy: Object)
    requires Gd.Valid()
    modifies Gd, obj`selected
    ensures Gd.Valid() && Gd.objs == [copy] + old(Gd.objs) && fresh(copy)
    ensures ItemOf(copy) == Placed(old(ItemOf(obj)), dx, dy, true) && ItemOf(obj) == old(ItemOf(obj)).(selected := false)
  {
    copy := Duplicate(obj, dx, dy);
    obj.selected := false;
    Gd.Add(copy);
  }

  // Copies of the selected objects of one graph go to the front of the other, or of the same.
  method Copy(Gs: Graph, Gd: Graph, dx: int, dy: int) returns (ghost news: seq<Object>)
    requires Gs.Valid() && Gd.Valid()
    modifies Gd, Gs.objs`selected
    ensures Linked(old(Gs.first), old(Gs.objs)) && Gd.Valid() && Gd.objs == news + old(Gd.objs)
    ensures forall o :: o in news ==> fresh(o)
    ensures Items(news) == Stacked(Picked(old(Items(Gs.objs))), dx, dy, true)
    ensures var at, m := old(Places(Gs.objs)), |news|;
      m == |at| && forall i :: 0 <= i < m ==>
        Stands(news[m - 1 - i], old(Gs.objs[at[i]].x) + dx, old(Gs.objs[at[i]].y) + dy, old(Gs.objs[at[i]].shape), true)
    ensures forall o :: o in old(Gs.objs) ==> ItemOf(o) == old(ItemOf(o)).(selected := false)
  {
    hide *;
    PickedAt(Gs.objs);
    ghost var s, at, picked := Gs.objs, Places(Gs.objs), Picked(Items(Gs.objs));
    forall i | 0 <= i < |at| ensures picked[i] == Item(s[at[i]].x, s[at[i]].y, s[at[i]].shape, s[at[i]].selected) {
      ItemIs(s[at[i]]);
    }
    news := CopyAll(Gs, Gd, dx, dy);
    Landed(news, picked, dx, dy, true);
    assert old(Gs.objs) == s && old(Places(Gs.objs)) == at;
    forall i | 0 <= i < |at|
      ensures Stands(news[|news| - 1 - i], old(s[at[i]].x) + dx, old(s[at[i]].y) + dy, old(s[at[i]].shape), true)
    {
      assert picked[i].x == old(s[at[i]].x) && picked[i].y == old(s[at[i]].y) && picked[i].shape == old(s[at[i]].shape);
    }
  }

  method CopyAll(Gs: Graph, Gd: Graph, dx: int, dy: int) returns (ghost news: seq<Object>)
    requires Gs.Valid() && Gd.Valid()
    modifies Gd, Gs.objs`selected
    ensures Linked(old(Gs.first), old(Gs.objs)) && Gd.Valid() && Gd.objs == news + old(Gd.objs)
    ensures forall o :: o in news ==> fresh(o)
    ensures Items(news) == Stacked(Picked(old(Items(Gs.objs))), dx, dy, true)
    ensures forall o :: o in old(Gs.objs) ==> ItemOf(o) == old(ItemOf(o)).(selected := false)
  {
    hide Linked, Placed, Picked, Stacked, Distinct, Items;
    ghost var s := Gs.objs;
    ghost var was := Items(s);
    var obj := Gs.first;
    ghost var i := 0;
    news := [];
    StartOf(Gs.first, s);
    assert was[..0] == [] && Stacked(Picked([]), dx, dy, true) == [] by { NoneYet(dx, dy, true); }
    while obj != null
      invariant i <= |s| && obj == (if i < |s| then s[i] else null)
      invariant Linked(old(Gs.first), s) && Gd.Valid() && Gd.objs == news + old(Gd.objs)
      invariant forall o :: o in news ==> fresh(o)
      invariant Items(news) == Stacked(Picked(was[..i]), dx, dy, true)
      invariant forall k :: 0 <= k < i ==> ItemOf(s[k]) == was[k].(selected := false)
      invariant forall k :: i <= k < |s| ==> ItemOf(s[k]) == was[k]
      decreases |s| - i
    {
      NextOf(old(Gs.first), s, i);
      OneMore(was, i, dx, dy, true);
      if obj.selected {
        ghost var stack := Items(news);
        assert obj !in news;
        var copy := AddCopy(Gd, obj, dx, dy);
        assert Items(news) == stack;
        ItemsCons(copy, news);
        news := [copy] + news;
      }
      i := i + 1;
      obj := obj.next;
    }
    assert was[..|s|] == was;
  }

  lemma NoneYet(dx: int, dy: int, selected: bool)
    ensures Stacked(Picked([]), dx, dy, selected) == []
  {
  }

  lemma StartOf(first: Object?, s: seq<Object>)
    requires Linked(first, s)
    ensures first == (if s == [] then null else s[0])
  {
  }

  // The objects that are not selected.
  function Unselected(s: seq<Object>): (r: seq<Object>)
    reads s`selected
    ensures forall i :: 0 <= i < |r| ==> r[i] in s
  {
    if s == [] then [] else (if s[0].selected then [] else [s[0]]) + Unselected(s[1..])
  }

  // Where they are.
  function Gaps(s: seq<Object>): (at: seq<nat>)
    reads s`selected
    ensures forall i :: 0 <= i < |at| ==> at[i] < |s| && !s[at[i]].selected
    ensures forall i, j :: 0 <= i < j < |at| ==> at[i] < at[j]
    ensures forall k :: 0 <= k < |s| && !s[k].selected ==> k in at
  {
    if s == [] then [] else
      var n := |s| - 1;
      Gaps(s[..n]) + (if s[n].selected then [] else [n])
  }

  lemma {:induction false} UnselectedAt(s: seq<Object>)
    ensures |Unselected(s)| == |Gaps(s)|
    ensures forall i :: 0 <= i < |Gaps(s)| ==> Unselected(s)[i] == s[Gaps(s)[i]]
    decreases |s|
  {
    if s != [] {
      var n := |s| - 1;
      UnselectedAt(s[..n]);
      UnselectedNext(s, n);
      assert s[..n + 1] == s;
    }
  }

  lemma {:induction false} UnselectedAppend(s: seq<Object>, o: Object)
    ensures Unselected(s + [o]) == Unselected(s) + (if o.selected then [] else [o])
  {
    if s != [] {
      assert (s + [o])[1..] == s[1..] + [o];
      UnselectedAppend(s[1..], o);
    }
  }

  lemma UnselectedNext(s: seq<Object>, i: nat)
    requires i < |s|
    ensures Unselected(s[..i + 1]) == Unselected(s[..i]) + (if s[i].selected then [] else [s[i]])
  {
    assert s[..i + 1] == s[..i] + [s[i]];
    UnselectedAppend(s[..i], s[i]);
  }

  lemma LinkedRest(first: Object?, s: seq<Object>, i: nat)
    requires Linked(first, s) && i <= |s|
    ensures Linked(if i < |s| then s[i] else null, s[i..])
  {
  }

  // Take `obj` out, between `pred` and what follows.
  method Unlink(pred: Object, obj: Object, ghost first: Object?, ghost front: seq<Object>, ghost rest: seq<Object>)
    requires front != [] && pred == front[|front| - 1] && Linked(first, front + [obj] + rest)
    modifies pred`next
    ensures Linked(first, front + rest)
  {
    hide Linked, Distinct;
    ghost var s, t, n := front + [obj] + rest, front + rest, |front|;
    forall k | 0 <= k < |s| ensures Next(s, k) && (k != n - 1 ==> s[k] != pred) {
      NextOf(first, s, k);
      assert s[n - 1] == pred;
    }
    Without(first, front, obj, rest);
    assert Next(s, n) && s[n] == obj;
    pred.next := obj.next;
    forall i | 0 <= i < |t| ensures Next(t, i) {
      if i < n - 1 {
        assert Next(s, i) && t[i] == s[i] && t[i + 1] == s[i + 1];
      } else if i == n - 1 {
        assert t[i] == pred && (n + 1 < |s| ==> t[n] == s[n + 1]);
      } else {
        assert Next(s, i + 1) && t[i] == s[i + 1] && (i + 1 < |t| ==> t[i + 1] == s[i + 2]);
      }
    }
    Relinked(first, t);
  }

  ghost predicate Next(s: seq<Object>, k: nat)
    requires k < |s|
    reads s`next
  {
    s[k].next == if k + 1 < |s| then s[k + 1] else null
  }

  lemma Without(first: Object?, front: seq<Object>, obj: Object, rest: seq<Object>)
    requires front != [] && Linked(first, front + [obj] + rest)
    ensures Distinct(front + rest) && first == (front + rest)[0]
  {
    hide Distinct;
    DistinctWithout(front, obj, rest);
    assert (front + [obj] + rest)[0] == front[0];
  }

  lemma Relinked(first: Object?, s: seq<Object>)
    requires s != [] && first == s[0] && Distinct(s)
    requires forall k :: 0 <= k < |s| ==> Next(s, k)
    ensures Linked(first, s)
  {
    hide Distinct;
    assert Next(s, |s| - 1);
    forall i, j | 0 <= i && j == i + 1 < |s| ensures s[i].next == s[j] {
      assert Next(s, i);
    }
  }

  lemma DistinctWithout(front: seq<Object>, obj: Object, rest: seq<Object>)
    requires Distinct(front + [obj] + rest)
    ensures Distinct(front + rest)
  {
    var s, t := front + [obj] + rest, front + rest;
    assert forall k :: 0 <= k < |t| ==> t[k] == s[if k < |front| then k else k + 1];
  }

  // The first object that is not selected.
  method SkipSelected(first: Object?, ghost s: seq<Object>) returns (obj: Object?, ghost i: nat)
    requires Linked(first, s)
    ensures i <= |s| && obj == (if i < |s| then s[i] else null) && Unselected(s[..i]) == []
    ensures Linked(obj, s[i..]) && (obj != null ==> !obj.selected)
  {
    hide Linked;
    StartOf(first, s);
    obj, i := first, 0;
    while obj != null && obj.selected
      invariant i <= |s| && obj == (if i < |s| then s[i] else null) && Unselected(s[..i]) == []
      decreases |s| - i
    {
      NextOf(first, s, i);
      UnselectedNext(s, i);
      i := i + 1;
      obj := obj.next;
    }
    LinkedRest(first, s, i);
  }

  // Exactly the objects that are not selected stay, in their order.
  method Delete(G: Graph)
    requires G.Valid()
    modifies G, G.objs`next
    ensures G.Valid() && G.objs == old(Unselected(G.objs)) && G.sel == null
    ensures var at := old(Gaps(G.objs)); |G.objs| == |at| && forall i :: 0 <= i < |at| ==> G.objs[i] == old(G.objs)[at[i]]
  {
    hide Distinct, Linked, Unselected, Gaps;
    UnselectedAt(G.objs);
    ghost var s := G.objs;
    G.sel := null;
    var obj;
    ghost var i;
    obj, i := SkipSelected(G.first, s);
    G.first := obj;
    G.objs := s[i..];
    if obj != null {
      var pred := obj;
      NextOf(G.first, G.objs, 0);
      UnselectedNext(s, i);
      DeleteRest(G, pred, obj.next, s, i + 1);
    } else {
      assert s[..|s|] == s;
    }
  }

  method DeleteRest(G: Graph, first: Object, second: Object?, ghost s: seq<Object>, ghost at: nat)
    requires at <= |s| && G.first == first && Unselected(s[..at]) == [first] && G.objs == [first] + s[at..]
    requires G.Valid() && second == (if at < |s| then s[at] else null)
    modifies G`objs, G.objs`next
    ensures G.Valid() && G.objs == Unselected(s)
  {
    hide Linked, Unselected;
    var pred, obj := first, second;
    ghost var i := at;
    ghost var kept := [first];
    while obj != null
      invariant i <= |s| && obj == (if i < |s| then s[i] else null)
      invariant kept == Unselected(s[..i]) && kept != [] && pred == kept[|kept| - 1] && pred in old(G.objs)
      invariant Linked(first, kept + s[i..])
      decreases |s| - i
    {
      UnselectedNext(s, i);
      assert s[i..] == [obj] + s[i + 1..];
      assert kept + s[i..] == kept + [obj] + s[i + 1..];
      NextOf(first, kept + [obj] + s[i + 1..], |kept|);
      var next := obj.next;
      if obj.selected {
        Unlink(pred, obj, first, kept, s[i + 1..]);
      } else {
        pred := obj;
        kept := kept + [obj];
      }
      i := i + 1;
      obj := next;
    }
    assert s[..|s|] == s && kept + s[|s|..] == kept;
    G.objs := kept;
  }

  class MacHead {
    var w: int
    var h: int
    var first: Object?
    ghost var objs: seq<Object>

    constructor (w: int, h: int, first: Object?, ghost objs: seq<Object>)
      ensures this.w == w && this.h == h && this.first == first && this.objs == objs
    {
      this.w, this.h, this.first, this.objs := w, h, first, objs;
    }
  }

  // Put a copy of `obj` in front of a list that starts with `last`.
  method Prepend(obj: Object, last: Object?, x: int, y: int, ghost s: seq<Object>) returns (new_: Object)
    requires Linked(last, s)
    ensures fresh(new_) && Linked(new_, [new_] + s) && ItemOf(new_) == Placed(ItemOf(obj), -x, -y, false)
  {
    new_ := new Object.Copy(obj);
    new_.next, new_.selected := last, false;
    new_.x, new_.y := Int16(new_.x - x), Int16(new_.y - y);
  }

  // A macro of copies of the selected objects, relative to (x, y), last selected first.
  method MakeMac(G: Graph, x: int, y: int, w: int, h: int) returns (mh: MacHead)
    requires G.Valid()
    ensures fresh(mh) && mh.w == w && mh.h == h && Linked(mh.first, mh.objs) && forall o :: o in mh.objs ==> fresh(o)
    ensures Items(mh.objs) == Stacked(Picked(Items(G.objs)), -x, -y, false)
    ensures var at, m := Places(G.objs), |mh.objs|;
      m == |at| && forall i :: 0 <= i < m ==>
        Stands(mh.objs[m - 1 - i], G.objs[at[i]].x - x, G.objs[at[i]].y - y, G.objs[at[i]].shape, false)
  {
    hide Linked, Picked, Stacked, Places, Stands, Int16, Items;
    mh := MacOf(G, x, y, w, h);
    PickedAt(G.objs);
    ghost var at, picked, news := Places(G.objs), Picked(Items(G.objs)), mh.objs;
    Landed(news, picked, -x, -y, false);
    forall i | 0 <= i < |at|
      ensures Stands(news[|news| - 1 - i], G.objs[at[i]].x - x, G.objs[at[i]].y - y, G.objs[at[i]].shape, false)
    {
      assert picked[i] == ItemOf(G.objs[at[i]]);
    }
  }

  method MacOf(G: Graph, x: int, y: int, w: int, h: int) returns (mh: MacHead)
    requires G.Valid()
    ensures fresh(mh) && mh.w == w && mh.h == h && Linked(mh.first, mh.objs) && forall o :: o in mh.objs ==> fresh(o)
    ensures Items(mh.objs) == Stacked(Picked(Items(G.objs)), -x, -y, false)
  {
    hide Linked, Placed, Picked, Stacked, Distinct, Items;
    ghost var s, was := G.objs, Items(G.objs);
    var obj, last: Object? := G.first, null;
    ghost var i, news: seq<Object> := 0, [];
    StartOf(G.first, s);
    LinkedNone();
    assert was[..0] == [] && Stacked(Picked([]), -x, -y, false) == [] by { NoneYet(-x, -y, false); }
    while obj != null
      invariant i <= |s| && obj == (if i < |s| then s[i] else null)
      invariant Linked(last, news) && forall o :: o in news ==> fresh(o)
      invariant Items(news) == Stacked(Picked(was[..i]), -x, -y, false)
      decreases |s| - i
    {
      NextOf(G.first, s, i);
      OneMore(was, i, -x, -y, false);
      if obj.selected {
        last := Prepend(obj, last, x, y, news);
        ItemsCons(last, news);
        news := [last] + news;
      }
      i := i + 1;
      obj := obj.next;
    }
    assert was[..|s|] == was;
    mh := new MacHead(w, h, last, news);
  }

  lemma LinkedNone()
    ensures Linked(null, [])
  {
  }

  method OpenOne(G: Graph, obj: Object, x: int, y: int) returns (copy: Object)
    requires G.Valid()
    modifies G
    ensures G.Valid() && G.objs == [copy] + old(G.objs) && fresh(copy)
    ensures ItemOf(copy) == Placed(ItemOf(obj), x, y, true)
  {
    copy := Duplicate(obj, x, y);
    copy.selected := true;
    G.Add(copy);
  }

  // Copies of a macro's objects go to the front of a graph, selected.
  method OpenMac(mh: MacHead, G: Graph, x: int, y: int) returns (ghost news: seq<Object>)
    requires Linked(mh.first, mh.objs) && G.Valid()
    modifies G
    ensures G.Valid() && G.objs == news + old(G.objs) && forall o :: o in news ==> fresh(o)
    ensures Items(news) == Stacked(old(Items(mh.objs)), x, y, true)
    ensures |news| == |mh.objs| && forall i :: 0 <= i < |news| ==>
      Stands(news[|news| - 1 - i], old(mh.objs[i].x) + x, old(mh.objs[i].y) + y, old(mh.objs[i].shape), true)
  {
    hide Linked, Picked, Stacked, Places, Stands, Int16, Items;
    ghost var s, was := mh.objs, Items(mh.objs);
    news := OpenAll(mh, G, x, y);
    Landed(news, was, x, y, true);
    forall i | 0 <= i < |s|
      ensures Stands(news[|news| - 1 - i], old(s[i].x) + x, old(s[i].y) + y, old(s[i].shape), true)
    {
      assert was[i] == old(ItemOf(s[i]));
    }
  }

  method OpenAll(mh: MacHead, G: Graph, x: int, y: int) returns (ghost news: seq<Object>)
    requires Linked(mh.first, mh.objs) && G.Valid()
    modifies G
    ensures G.Valid() && G.objs == news + old(G.objs) && forall o :: o in news ==> fresh(o)
    ensures Items(news) == Stacked(Items(mh.objs), x, y, true)
  {
    hide Linked, Placed, Stacked, Distinct, Items;
    ghost var s, was := mh.objs, Items(mh.objs);
    var obj := mh.first;
    ghost var i := 0;
    news := [];
    StartOf(mh.first, s);
    assert was[..0] == [] && Stacked([], x, y, true) == [] == Items([]) by { NoneYet(x, y, true); }
    while obj != null
      invariant i <= |s| && obj == (if i < |s| then s[i] else null)
      invariant G.Valid() && G.objs == news + old(G.objs) && forall o :: o in news ==> fresh(o)
      invariant Items(news) == Stacked(was[..i], x, y, true)
      decreases |s| - i
    {
      NextOf(mh.first, s, i);
      assert was[..i + 1] == was[..i] + [was[i]];
      StackedAppend(was[..i], was[i], x, y, true);
      ghost var stack := Items(news);
      var copy := OpenOne(G, obj, x, y);
      assert Items(news) == stack;
      ItemsCons(copy, news);
      news := [copy] + news;
      i := i + 1;
      obj := obj.next;
    }
    assert was[..|s|] == was;
  }

  // A selection made a macro, and the macro opened at the same place in some graph: copies of
  // exactly the selected objects, where they were and in their order.
  method ThroughMacro(G: Graph, Gd: Graph, x: int, y: int, w: int, h: int) returns (ghost news: seq<Object>)
    requires G.Valid() && Gd.Valid() && InRange(Items(G.objs))
    modifies Gd
    ensures Gd.Valid() && Gd.objs == news + old(Gd.objs) && Items(news) == Picked(old(Items(G.objs)))
  {
    hide Linked, Distinct, Items, Picked, Stacked;
    ghost var picked := Picked(Items(G.objs));
    PickedSelected(Items(G.objs));
    assert InRange(picked);
    OutAndBack(picked, x, y);
    var mh := MakeMac(G, x, y, w, h);
    news := OpenMac(mh, Gd, x, y);
  }
}
