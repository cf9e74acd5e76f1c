/** Greedy packing under a token limit: the loop shared by the sentence and the unit packer
    (assistant/chunking.py). */
module Packing {
  import opened Sequences

  /** How items weigh, the limit, and when an item opens a new group of its own accord, given the
      weight packed so far. */
  datatype Packer<!T> = Packer(weight: T -> nat, limit: int, opens: (T, nat) -> bool)

  function Weight<T>(p: Packer<T>, group: seq<T>): nat {
    if group == [] then 0 else Weight(p, group[..|group| - 1]) + p.weight(group[|group| - 1])
  }

  /** The item does not join this group. */
  predicate Cuts<T>(p: Packer<T>, group: seq<T>, item: T) {
    group != [] && (p.opens(item, Weight(p, group)) || Weight(p, group) + p.weight(item) > p.limit)
  }

  /** Joins the item to the last group or starts a new one. */
  function Placed<T>(p: Packer<T>, groups: seq<seq<T>>, item: T): seq<seq<T>> {
    if groups == [] || Cuts(p, groups[|groups| - 1], item) then groups + [[item]]
    else groups[..|groups| - 1] + [groups[|groups| - 1] + [item]]
  }

  function Groups<T>(p: Packer<T>, items: seq<T>): seq<seq<T>> {
    if items == [] then []
    else Placed(p, Groups(p, items[..|items| - 1]), items[|items| - 1])
  }

  /** What a packing is, without saying how it is computed: it holds the items in order, no group is
      empty, a group never contains an item that its predecessors cut off, and every group boundary is a cut. */
  ghost predicate IsPacking<T>(p: Packer<T>, groups: seq<seq<T>>, items: seq<T>) {
    && Flatten(groups) == items
    && (forall g :: 0 <= g < |groups| ==> Fits(p, groups[g]))
    && (forall g :: 0 <= g < |groups| - 1 ==> Separated(p, groups, g))
  }

  ghost predicate Fits<T>(p: Packer<T>, group: seq<T>) {
    group != [] && forall i :: 1 <= i < |group| ==> !Cuts(p, group[..i], group[i])
  }

  ghost predicate Separated<T>(p: Packer<T>, groups: seq<seq<T>>, g: nat)
    requires g + 1 < |groups|
  {
    groups[g + 1] != [] && Cuts(p, groups[g], groups[g + 1][0])
  }

  /** The source's loop: a running group and its running token count. */
  method Pack<T>(p: Packer<T>, items: seq<T>) returns (groups: seq<seq<T>>)
    ensures groups == Groups(p, items)
  {
    groups := [];
    var current: seq<T> := [];
    var currentTokens := 0;
    for i := 0 to |items|
      invariant currentTokens == Weight(p, current)
      invariant current == [] <==> i == 0
      invariant groups + (if current == [] then [] else [current]) == Groups(p, items[..i])
    {
      assert items[..i + 1][..i] == items[..i];
      var item := items[i];
      var tokens := p.weight(item);
      ghost var done := Groups(p, items[..i]);
      if current != [] {
        assert done[|done| - 1] == current && done[..|done| - 1] == groups;
      }
      if current != [] && (p.opens(item, currentTokens) || currentTokens + tokens > p.limit) {
        groups := groups + [current];
        current, currentTokens := [], 0;
      }
      assert (current + [item])[..|current|] == current;
      current := current + [item];
      currentTokens := currentTokens + tokens;
    }
    assert items[..|items|] == items;
    if current != [] {
      groups := groups + [current];
    }
  }

  lemma SnocParts<T>(s: seq<T>, x: T)
    ensures (s + [x])[..|s|] == s && (s + [x])[|s|] == x
  {
  }

  lemma FitsGrows<T>(p: Packer<T>, group: seq<T>, item: T)
    requires Fits(p, group) && !Cuts(p, group, item)
    ensures Fits(p, group + [item])
  {
    hide Cuts;
    var grown := group + [item];
    forall i | 1 <= i < |grown|
      ensures !Cuts(p, grown[..i], grown[i])
    {
      if i < |group| {
        assert grown[..i] == group[..i];
      } else {
        assert grown[..i] == group;
      }
    }
  }

  lemma NewGroup<T>(p: Packer<T>, front: seq<seq<T>>, items: seq<T>, item: T)
    requires IsPacking(p, front, items) && (front == [] || Cuts(p, front[|front| - 1], item))
    ensures IsPacking(p, front + [[item]], items + [item])
  {
    hide Cuts, Fits;
    FlattenAppend(front, [item]);
    SingletonFits(p, item);
    var groups := front + [[item]];
    forall g | 0 <= g < |groups| - 1
      ensures Separated(p, groups, g)
    {
      assert g < |front| - 1 ==> Separated(p, front, g);
    }
  }

  lemma JoinedGroup<T>(p: Packer<T>, front: seq<seq<T>>, items: seq<T>, item: T)
    requires front != [] && IsPacking(p, front, items) && !Cuts(p, front[|front| - 1], item)
    ensures IsPacking(p, front[..|front| - 1] + [front[|front| - 1] + [item]], items + [item])
  {
    var n := |front| - 1;
    assert Fits(p, front[n]);
    FitsGrows(p, front[n], item);
    FitsNotEmpty(p, front[n]);
    hide Cuts, Fits;
    FlattenAppend(front[..n], front[n] + [item]);
    assert Flatten(front[..n]) + (front[n] + [item]) == Flatten(front) + [item];
    var groups := front[..n] + [front[n] + [item]];
    forall g | 0 <= g < |groups| - 1
      ensures Separated(p, groups, g)
    {
      assert Separated(p, front, g);
    }
  }

  lemma FitsNotEmpty<T>(p: Packer<T>, group: seq<T>)
    requires Fits(p, group)
    ensures group != []
  {
  }

  /** Greedy packing loses, duplicates and reorders nothing, and cuts exactly where it must. */
  lemma {:induction false} GroupsArePacking<T>(p: Packer<T>, items: seq<T>)
    ensures IsPacking(p, Groups(p, items), items)
  {
    hide Cuts, IsPacking;
    if items == [] {
      NoGroups(p);
    } else {
      var k := |items| - 1;
      var front, item := Groups(p, items[..k]), items[k];
      GroupsArePacking(p, items[..k]);
      assert items == items[..k] + [item];
      if front == [] || Cuts(p, front[|front| - 1], item) {
        NewGroup(p, front, items[..k], item);
      } else {
        JoinedGroup(p, front, items[..k], item);
      }
    }
  }

  lemma NoGroups<T>(p: Packer<T>)
    ensures IsPacking(p, [], [])
  {
  }

  lemma SingletonFits<T>(p: Packer<T>, item: T)
    ensures Fits(p, [item])
  {
  }

  /** There is only one such packing. */
  lemma {:induction false} PackingUnique<T>(p: Packer<T>, groups: seq<seq<T>>, items: seq<T>)
    requires IsPacking(p, groups, items)
    ensures groups == Groups(p, items)
    decreases |items|
  {
    hide Cuts;
    if groups != [] {
      var n := |groups| - 1;
      var front, last := groups[..n], groups[n];
      assert Fits(p, last);
      var m := |last| - 1;
      var item := last[m];
      assert last == last[..m] + [item];
      assert items == (Flatten(front) + last[..m]) + [item];
      SnocParts(Flatten(front) + last[..m], item);
      if m == 0 {
        assert last[..0] == [] && Flatten(front) + [] == Flatten(front);
        PackingPrefix(p, groups, items);
        PackingUnique(p, front, items[..|items| - 1]);
        if front != [] {
          assert Separated(p, groups, n - 1);
        }
        assert groups == front + [[item]];
      } else {
        var shorter := front + [last[..m]];
        FlattenAppend(front, last[..m]);
        ShorterPacking(p, groups, items);
        PackingUnique(p, shorter, items[..|items| - 1]);
        assert !Cuts(p, last[..m], last[m]);
        assert shorter[..n] == front && shorter[n] == last[..m];
        assert groups == front + [last[..m] + [item]];
      }
    }
  }

  lemma PackingPrefix<T>(p: Packer<T>, groups: seq<seq<T>>, items: seq<T>)
    requires groups != [] && IsPacking(p, groups, items)
    ensures IsPacking(p, groups[..|groups| - 1], Flatten(groups[..|groups| - 1]))
  {
    hide Cuts, Fits;
    var front := groups[..|groups| - 1];
    forall g | 0 <= g < |front| - 1
      ensures Separated(p, front, g)
    {
      assert Separated(p, groups, g);
    }
  }

  lemma ShorterPacking<T>(p: Packer<T>, groups: seq<seq<T>>, items: seq<T>)
    requires groups != [] && IsPacking(p, groups, items) && |groups[|groups| - 1]| > 1
    ensures var n := |groups| - 1;
            var shorter := groups[..n] + [groups[n][..|groups[n]| - 1]];
            IsPacking(p, shorter, Flatten(shorter))
  {
    hide Cuts;
    var n := |groups| - 1;
    var last := groups[n];
    var cut := last[..|last| - 1];
    var shorter := groups[..n] + [cut];
    assert Fits(p, last);
    assert Fits(p, cut) by {
      forall i | 1 <= i < |cut|
        ensures !Cuts(p, cut[..i], cut[i])
      {
        assert !Cuts(p, last[..i], last[i]);
        assert cut[..i] == last[..i];
      }
    }
    hide Fits;
    forall g | 0 <= g < |shorter| - 1
      ensures Separated(p, shorter, g)
    {
      assert Separated(p, groups, g);
    }
  }

  /** A group of two or more items is within the limit. */
  lemma MultiItemWithinLimit<T>(p: Packer<T>, group: seq<T>)
    requires Fits(p, group) && |group| >= 2
    ensures Weight(p, group) <= p.limit
  {
    var k := |group| - 1;
    assert !Cuts(p, group[..k], group[k]);
  }

  /** Every item stands in some group. */
  lemma {:induction false} ItemHasGroup<T>(groups: seq<seq<T>>, x: T) returns (g: nat)
    requires x in Flatten(groups)
    ensures g < |groups| && x in groups[g]
  {
    var n := |groups| - 1;
    if x in groups[n] {
      g := n;
    } else {
      g := ItemHasGroup(groups[..n], x);
    }
  }

  lemma {:induction false} GroupItemInFlat<T>(groups: seq<seq<T>>, g: nat, x: T)
    requires g < |groups| && x in groups[g]
    ensures x in Flatten(groups)
  {
    var n := |groups| - 1;
    if g < n {
      GroupItemInFlat(groups[..n], g, x);
    }
  }

  lemma {:induction false} WeightAtLeastItem<T>(p: Packer<T>, group: seq<T>, x: T)
    requires x in group
    ensures p.weight(x) <= Weight(p, group)
  {
    var k := |group| - 1;
    if x != group[k] {
      assert x in group[..k];
      WeightAtLeastItem(p, group[..k], x);
    }
  }

  /** An over-limit item is alone in its group, and an over-limit group is such an item. */
  lemma OverLimitAlone<T>(p: Packer<T>, group: seq<T>, x: T)
    requires Fits(p, group) && x in group
    ensures p.weight(x) > p.limit ==> group == [x]
    ensures Weight(p, group) > p.limit ==> |group| == 1 && Weight(p, group) == p.weight(group[0])
  {
    if |group| >= 2 {
      MultiItemWithinLimit(p, group);
      WeightAtLeastItem(p, group, x);
    } else {
      assert group[..0] == [];
    }
  }
}
