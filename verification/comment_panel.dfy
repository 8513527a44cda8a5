/** The client side of the comment moderation page
  * (src/app/admin/comments/CommentPanel.jsx): the flattening of the comment
  * list, the reply forest built from `parent_id`, and the selection state
  * with its shift-click ranges, select-all box and optimistic bulk removal.
  */
module CommentPanel {
  import opened JsText
  import opened Tables
  import Lists
  import CommentActions

  /** A comment as the panel holds it: its id, its `parent_id` (`None` for
    * null) and, on a tree node, its `children` array. A row without
    * `children` has `[]` here: `flatten` treats the two alike, since an
    * empty array flattens to nothing. */
  datatype Comment = Comment(id: int, parentId: Option<int>, children: seq<Comment>)

  // ---------------------------------------------------------------------
  // flatten

  /** `flatten(nodes)`: every node, followed by the flattening of its
    * `children` when it has them. */
  function Flatten(nodes: seq<Comment>): (r: seq<Comment>)
    ensures |r| >= |nodes|
    ensures nodes != [] ==> r[0] == nodes[0]
    decreases nodes
  {
    if nodes == [] then []
    else
      assert nodes[0] in nodes;
      [nodes[0]] + Flatten(nodes[0].children) + Flatten(nodes[1..])
  }

  /** Flattening a concatenation flattens each part. */
  lemma {:induction false} FlattenAppend(a: seq<Comment>, b: seq<Comment>)
    ensures Flatten(a + b) == Flatten(a) + Flatten(b)
  {
    if a == [] {
      assert a + b == b;
    } else {
      var ab := a + b;
      assert ab[0] == a[0] && ab[1..] == a[1..] + b;
      FlattenAppend(a[1..], b);
      var head := [a[0]] + Flatten(a[0].children);
      assert Flatten(ab) == head + Flatten(a[1..] + b);
      assert Flatten(a) == head + Flatten(a[1..]);
      Lists.ConcatAssoc(head, Flatten(a[1..]), Flatten(b));
    }
  }

  /** On rows without children, as the server sends them, flatten is the identity. */
  lemma {:induction false} FlattenLeaves(nodes: seq<Comment>)
    requires forall i :: 0 <= i < |nodes| ==> nodes[i].children == []
    ensures Flatten(nodes) == nodes
  {
    if nodes != [] {
      FlattenLeaves(nodes[1..]);
      assert Flatten([]) == [];
    }
  }

  /** The input nodes all come out of the flattening, in input order. */
  lemma {:induction false} FlattenKeepsRoots(nodes: seq<Comment>)
    ensures Lists.IsSubsequence(nodes, Flatten(nodes))
  {
    if nodes != [] {
      FlattenKeepsRoots(nodes[1..]);
      var n := nodes[0];
      assert n in nodes;
      var below := Flatten(n.children);
      Lists.SubsequencePrefix(nodes[1..], Flatten(nodes[1..]), below);
      assert Flatten(nodes) == [n] + (below + Flatten(nodes[1..]));
    }
  }

  function Ids(cs: seq<Comment>): (r: seq<int>)
    ensures |r| == |cs| && forall i :: 0 <= i < |cs| ==> r[i] == cs[i].id
  {
    seq(|cs|, i requires 0 <= i < |cs| => cs[i].id)
  }

  // ---------------------------------------------------------------------
  // commentTree

  /** `c.parent_id && map.has(c.parent_id)` fails: the comment is a root. */
  predicate IsRoot(c: Comment, ids: set<int>) {
    c.parentId.None? || c.parentId.value == 0 || c.parentId.value !in ids
  }

  /** The roots, in input order. */
  function Roots(cs: seq<Comment>, ids: set<int>): seq<int> {
    if cs == [] then []
    else
      var c := cs[|cs| - 1];
      Roots(cs[..|cs| - 1], ids) + (if IsRoot(c, ids) then [c.id] else [])
  }

  /** The children of `p`, in input order. */
  function ChildrenOf(cs: seq<Comment>, ids: set<int>, p: int): seq<int> {
    if cs == [] then []
    else
      var c := cs[|cs| - 1];
      ChildrenOf(cs[..|cs| - 1], ids, p) + (if !IsRoot(c, ids) && c.parentId.value == p then [c.id] else [])
  }

  /** The roots are the ids of the comments whose parent is falsy or unknown. */
  lemma {:induction false} RootsMembers(cs: seq<Comment>, ids: set<int>)
    ensures forall x :: x in Roots(cs, ids) <==> exists c :: c in cs && IsRoot(c, ids) && c.id == x
  {
    if cs != [] {
      var init := cs[..|cs| - 1];
      RootsMembers(init, ids);
      assert cs == init + [cs[|cs| - 1]];
    }
  }

  /** The children of `p` are the ids of the comments placed under `p`. */
  lemma {:induction false} ChildrenMembers(cs: seq<Comment>, ids: set<int>, p: int)
    ensures forall x :: x in ChildrenOf(cs, ids, p) <==>
                        exists c :: c in cs && !IsRoot(c, ids) && c.parentId.value == p && c.id == x
  {
    if cs != [] {
      var init := cs[..|cs| - 1];
      ChildrenMembers(init, ids, p);
      assert cs == init + [cs[|cs| - 1]];
    }
  }

  function IdSet(cs: seq<Comment>): set<int> {
    set c | c in cs :: c.id
  }

  lemma IdSetSnoc(cs: seq<Comment>, i: nat)
    requires i < |cs|
    ensures IdSet(cs[..i + 1]) == IdSet(cs[..i]) + {cs[i].id}
  {
    assert cs[..i + 1] == cs[..i] + [cs[i]];
  }

  /** One more comment extends the roots and the children lists by at most
    * its own id. */
  lemma PlaceSnoc(cs: seq<Comment>, i: nat, ids: set<int>)
    requires i < |cs|
    ensures Roots(cs[..i + 1], ids) == Roots(cs[..i], ids) + (if IsRoot(cs[i], ids) then [cs[i].id] else [])
    ensures forall p ::
              ChildrenOf(cs[..i + 1], ids, p) ==
              ChildrenOf(cs[..i], ids, p) + (if !IsRoot(cs[i], ids) && cs[i].parentId.value == p then [cs[i].id] else [])
  {
    assert cs[..i + 1][..i] == cs[..i];
  }

  /** The second pass's step keeps every children list equal to the
    * children of its id among the comments seen so far. */
  lemma ChildrenStep(cs: seq<Comment>, i: nat, ids: set<int>, children: map<int, seq<int>>)
    requires i < |cs| && children.Keys == ids
    requires forall p :: p in children ==> children[p] == ChildrenOf(cs[..i], ids, p)
    ensures var c := cs[i];
      var next := if IsRoot(c, ids) then children else children[c.parentId.value := children[c.parentId.value] + [c.id]];
      forall p :: p in next ==> next[p] == ChildrenOf(cs[..i + 1], ids, p)
  {
    PlaceSnoc(cs, i, ids);
  }

  /** `commentTree`: `map` gets a fresh node for every comment, then each
    * comment is pushed onto its parent's `children` or onto `roots`. The
    * nodes are linked by reference, so the forest is given by the root ids
    * and each id's children ids. */
  method CommentTree(cs: seq<Comment>) returns (roots: seq<int>, children: map<int, seq<int>>)
    ensures children.Keys == IdSet(cs)
    ensures roots == Roots(cs, IdSet(cs))
    ensures forall p :: p in children ==> children[p] == ChildrenOf(cs, IdSet(cs), p)
  {
    children := map[];
    var i := 0;
    while i < |cs|
      invariant 0 <= i <= |cs|
      invariant children.Keys == IdSet(cs[..i])
      invariant forall p :: p in children ==> children[p] == []
    {
      IdSetSnoc(cs, i);
      children := children[cs[i].id := []];
      i := i + 1;
    }
    assert cs[..i] == cs;
    ghost var ids := IdSet(cs);
    roots := [];
    i := 0;
    while i < |cs|
      invariant 0 <= i <= |cs|
      invariant children.Keys == ids
      invariant roots == Roots(cs[..i], ids)
      invariant forall p :: p in children ==> children[p] == ChildrenOf(cs[..i], ids, p)
    {
      var c := cs[i];
      PlaceSnoc(cs, i, ids);
      ChildrenStep(cs, i, ids, children);
      if c.parentId.Some? && c.parentId.value != 0 && c.parentId.value in children {
        children := children[c.parentId.value := children[c.parentId.value] + [c.id]];
      } else {
        roots := roots + [c.id];
      }
      i := i + 1;
    }
    assert cs[..i] == cs;
  }

  predicate UniqueIds(cs: seq<Comment>) {
    forall i, j :: 0 <= i < j < |cs| ==> cs[i].id != cs[j].id
  }

  /** With unique ids, each comment is placed exactly once: it is a root
    * exactly when its parent is falsy or unknown, and otherwise it is a child
    * of its parent and of no other comment. */
  lemma PlacedOnce(cs: seq<Comment>, c: Comment, q: int)
    requires UniqueIds(cs) && c in cs
    ensures var ids := IdSet(cs);
      && (c.id in Roots(cs, ids) <==> IsRoot(c, ids))
      && (c.id in ChildrenOf(cs, ids, q) <==> !IsRoot(c, ids) && c.parentId.value == q)
  {
    var ids := IdSet(cs);
    RootsMembers(cs, ids);
    ChildrenMembers(cs, ids, q);
    if c.id in Roots(cs, ids) {
      var d :| d in cs && IsRoot(d, ids) && d.id == c.id;
      assert d == c;
    }
    if c.id in ChildrenOf(cs, ids, q) {
      var d :| d in cs && !IsRoot(d, ids) && d.parentId.value == q && d.id == c.id;
      assert d == c;
    }
  }

  /** Roots and children lists keep the input order. */
  lemma {:induction false} RootsInOrder(cs: seq<Comment>, ids: set<int>)
    ensures Lists.IsSubsequence(Roots(cs, ids), Ids(cs))
  {
    if cs != [] {
      var init := cs[..|cs| - 1];
      var c := cs[|cs| - 1];
      RootsInOrder(init, ids);
      assert Ids(cs) == Ids(init) + [c.id];
      Lists.SubsequenceSnoc(Roots(init, ids), Ids(init), c.id, IsRoot(c, ids));
    }
  }

  lemma {:induction false} ChildrenInOrder(cs: seq<Comment>, ids: set<int>, p: int)
    ensures Lists.IsSubsequence(ChildrenOf(cs, ids, p), Ids(cs))
  {
    if cs != [] {
      var init := cs[..|cs| - 1];
      var c := cs[|cs| - 1];
      ChildrenInOrder(init, ids, p);
      assert Ids(cs) == Ids(init) + [c.id];
      Lists.SubsequenceSnoc(ChildrenOf(init, ids, p), Ids(init), c.id, !IsRoot(c, ids) && c.parentId.value == p);
    }
  }

  // ---------------------------------------------------------------------
  // The selection

  /** The select-all box: checked when everything is selected, indeterminate
    * when only part is. */
  function Checked(numSelected: nat, numTotal: nat): bool {
    numSelected == numTotal && numTotal > 0
  }

  function Indeterminate(numSelected: nat, numTotal: nat): bool {
    numSelected > 0 && numSelected < numTotal
  }

  /** The box is never both checked and indeterminate, and it is neither
    * exactly when nothing is selected (or there is nothing to select). */
  lemma TriState(numSelected: nat, numTotal: nat)
    ensures !(Checked(numSelected, numTotal) && Indeterminate(numSelected, numTotal))
    ensures numSelected <= numTotal ==>
      (!Checked(numSelected, numTotal) && !Indeterminate(numSelected, numTotal) <==> numSelected == 0 || numTotal == 0)
  {
  }

  /** The shift-click range: the ids of `flat` from the anchor to the clicked
    * id, both included, with `indexOf` and `slice` as JavaScript has them. */
  function ShiftRange(flat: seq<int>, anchor: int, clicked: int): seq<int> {
    var start := Lists.IndexOf(flat, anchor);
    var end := Lists.IndexOf(flat, clicked);
    Lists.Slice(flat, if start < end then start else end, (if start < end then end else start) + 1)
  }

  /** With both ids present, the range is the contiguous run between them. */
  lemma ShiftRangeContiguous(flat: seq<int>, anchor: int, clicked: int)
    requires anchor in flat && clicked in flat
    ensures var a := Lists.IndexOf(flat, anchor);
      var b := Lists.IndexOf(flat, clicked);
      ShiftRange(flat, anchor, clicked) == if a <= b then flat[a..b + 1] else flat[b..a + 1]
  {
  }

  /** `new Set([...selected, ...range])`: the old selection, then the ids of
    * the range not yet selected, each once. */
  lemma ShiftUnion(selected: seq<int>, range: seq<int>)
    requires Lists.NoDuplicates(selected)
    ensures Lists.Dedupe(selected + range) == selected + Lists.DedupeAfter(range, set x | x in selected)
    ensures Lists.NoDuplicates(Lists.Dedupe(selected + range))
  {
    Lists.DedupeAppend(selected, range);
  }

  /** A shift-click whose anchor is no longer listed starts the slice at
    * `-1`, the last position: the range is the last id when the clicked id
    * is the last one, and empty otherwise. */
  lemma ShiftRangeLostAnchor(flat: seq<int>, anchor: int, clicked: int)
    requires anchor !in flat && clicked in flat
    ensures var b := Lists.IndexOf(flat, clicked);
      ShiftRange(flat, anchor, clicked) == if b == |flat| - 1 then [flat[b]] else []
  {
  }

  /** `lastCheckedId` is truthy: set, and not 0. */
  predicate HasAnchor(anchor: Option<int>) {
    anchor.Some? && anchor.value != 0
  }

  class Panel {
    var comments: seq<Comment>
    var selected: seq<int>
    var lastChecked: Option<int>

    /** `flatCommentIds`. */
    function FlatIds(): seq<int>
      reads this
    {
      Ids(Flatten(comments))
    }

    constructor (initial: seq<Comment>)
      ensures comments == initial && selected == [] && lastChecked == None
    {
      comments, selected, lastChecked := initial, [], None;
    }

    /** `handleSelect(commentId, event)`. */
    method HandleSelect(commentId: int, shift: bool)
      modifies this
      ensures comments == old(comments)
      ensures lastChecked == Some(commentId)
      ensures shift && HasAnchor(old(lastChecked)) ==>
        selected == Lists.Dedupe(old(selected) + ShiftRange(FlatIds(), old(lastChecked).value, commentId))
      ensures !(shift && HasAnchor(old(lastChecked))) ==> selected == Lists.Toggle(old(selected), commentId)
    {
      if shift && HasAnchor(lastChecked) {
        var range := ShiftRange(FlatIds(), lastChecked.value, commentId);
        selected := Lists.Dedupe(selected + range);
      } else {
        selected := Lists.Toggle(selected, commentId);
      }
      lastChecked := Some(commentId);
    }

    /** `handleSelectAll(e)`. */
    method HandleSelectAll(checked: bool)
      modifies this
      ensures comments == old(comments) && lastChecked == old(lastChecked)
      ensures selected == if checked then FlatIds() else []
    {
      selected := if checked then FlatIds() else [];
    }

    /** The effect on `activeTab`: the selection and anchor are cleared; the
      * `pending` tab shows the comments the page was rendered with, any other
      * tab what `fetchComments` answers, and `[]` when it throws (`None`). */
    method ChangeTab(tab: JsString, initial: seq<Comment>, fetched: Option<seq<Comment>>)
      modifies this
      ensures selected == [] && lastChecked == None
      ensures tab == Lit("pending") ==> comments == initial
      ensures tab != Lit("pending") && fetched.Some? ==> comments == fetched.value
      ensures tab != Lit("pending") && fetched.None? ==> comments == []
    {
      selected, lastChecked := [], None;
      if tab != Lit("pending") {
        comments := if fetched.Some? then fetched.value else [];
      } else {
        comments := initial;
      }
    }

    /** `handleBulkAction(action, payload)`: the selection and anchor are
      * cleared and the selected comments leave the list at once; then the
      * server action runs on the copied ids, and whatever it throws is
      * ignored. `fails` is the database rejecting the statement. */
    method HandleBulkAction(action: BulkAction, db: Database, fails: bool)
      modifies this, db
      ensures selected == [] && lastChecked == None
      ensures comments == WithoutIds(old(comments), old(selected))
      ensures var ids := old(selected);
        db.Snapshot() ==
          if fails || ids == [] || action.Other? || (action.SetStatus? && Blank(action.payload)) then old(db.Snapshot())
          else if action.Delete? then Apply(DeleteComments(ids), old(db.Snapshot()))
          else Apply(SetCommentsStatus(ids, action.payload.value), old(db.Snapshot()))
    {
      var toUpdate := selected;
      selected := [];
      lastChecked := None;
      comments := WithoutIds(comments, toUpdate);
      if action.Delete? {
        var _ := CommentActions.DeleteCommentsPermanently(db, Some(toUpdate), fails);
      } else if action.SetStatus? {
        var _ := CommentActions.UpdateCommentsStatus(db, Some(toUpdate), action.payload, fails);
      }
    }
  }

  /** The `action` argument of `handleBulkAction`: `"delete"`, `"status"`
    * with its payload, or any other string, which only clears the list. */
  datatype BulkAction = Delete | SetStatus(payload: Option<JsString>) | Other

  /** `prev.filter((c) => !ids.includes(c.id))`. */
  function WithoutIds(cs: seq<Comment>, ids: seq<int>): (r: seq<Comment>)
    ensures forall c :: c in r <==> c in cs && c.id !in ids
    ensures Lists.IsSubsequence(r, cs)
  {
    if cs == [] then []
    else if cs[0].id in ids then
      var r := WithoutIds(cs[1..], ids);
      r
    else
      [cs[0]] + WithoutIds(cs[1..], ids)
  }

  /** Without shift, a click flips exactly the clicked id; with shift the old
    * selection is kept and extended. Both keep a selection free of duplicates. */
  lemma SelectKeepsNoDuplicates(selected: seq<int>, range: seq<int>, id: int)
    requires Lists.NoDuplicates(selected)
    ensures Lists.NoDuplicates(Lists.Toggle(selected, id))
    ensures Lists.NoDuplicates(Lists.Dedupe(selected + range))
    ensures forall x :: x in selected ==> x in Lists.Dedupe(selected + range)
  {
    Lists.ToggleNoDuplicates(selected, id);
    ShiftUnion(selected, range);
  }
}
