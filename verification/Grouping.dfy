/** Grouping by key in order of first appearance: what an insertion-ordered map from keys to
    sets builds up when members are added one by one. */
module Grouping {
  import opened Prelude

  /** One addition: `member` goes to the group with this key. */
  datatype Need<+K> = Need(key: K, member: string)

  datatype Bucket<+K> = Bucket(key: K, members: set<string>)

  /** Adds to the bucket with the need's key, or opens a new bucket at the end. */
  function Add<K(==)>(buckets: seq<Bucket<K>>, need: Need<K>): seq<Bucket<K>> {
    if buckets == [] then [Bucket(need.key, {need.member})]
    else if buckets[0].key == need.key then [Bucket(need.key, buckets[0].members + {need.member})] + buckets[1..]
    else [buckets[0]] + Add(buckets[1..], need)
  }

  function Group<K(==)>(needs: seq<Need<K>>): seq<Bucket<K>> {
    if needs == [] then [] else Add(Group(needs[..|needs| - 1]), needs[|needs| - 1])
  }

  /** No two buckets share a key, and none is empty. */
  predicate WellGrouped<K(==)>(buckets: seq<Bucket<K>>) {
    && (forall i :: 0 <= i < |buckets| ==> buckets[i].members != {})
    && forall i, j :: 0 <= i < j < |buckets| ==> buckets[i].key != buckets[j].key
  }

  predicate Holds<K(==)>(buckets: seq<Bucket<K>>, need: Need<K>) {
    exists i :: 0 <= i < |buckets| && buckets[i].key == need.key && need.member in buckets[i].members
  }

  lemma {:induction false} AddToBucket<K>(buckets: seq<Bucket<K>>, need: Need<K>, k: nat)
    requires WellGrouped(buckets) && k < |buckets| && buckets[k].key == need.key
    ensures Add(buckets, need) == buckets[k := Bucket(need.key, buckets[k].members + {need.member})]
  {
    if k > 0 {
      assert buckets[0].key != buckets[k].key;
      assert WellGrouped(buckets[1..]) by {
        assert forall i :: 0 <= i < |buckets[1..]| ==> buckets[1..][i] == buckets[i + 1];
      }
      AddToBucket(buckets[1..], need, k - 1);
    }
  }

  lemma {:induction false} AddNewBucket<K>(buckets: seq<Bucket<K>>, need: Need<K>)
    requires forall i :: 0 <= i < |buckets| ==> buckets[i].key != need.key
    ensures Add(buckets, need) == buckets + [Bucket(need.key, {need.member})]
  {
    if buckets != [] {
      AddNewBucket(buckets[1..], need);
    }
  }

  /** An addition adds exactly its own member and keeps the buckets well grouped. */
  lemma AddIsExact<K>(buckets: seq<Bucket<K>>, need: Need<K>, other: Need<K>)
    requires WellGrouped(buckets)
    ensures WellGrouped(Add(buckets, need))
    ensures Holds(Add(buckets, need), other) <==> Holds(buckets, other) || other == need
  {
    if k :| 0 <= k < |buckets| && buckets[k].key == need.key {
      AddToBucket(buckets, need, k);
      var after := Add(buckets, need);
      assert after[k] == Bucket(need.key, buckets[k].members + {need.member});
      if i :| 0 <= i < |buckets| && buckets[i].key == other.key && other.member in buckets[i].members {
        assert after[i].key == other.key && other.member in after[i].members;
      }
    } else {
      AddNewBucket(buckets, need);
      var after := Add(buckets, need);
      assert after[|buckets|] == Bucket(need.key, {need.member});
      if i :| 0 <= i < |buckets| && buckets[i].key == other.key && other.member in buckets[i].members {
        assert after[i] == buckets[i];
      }
    }
  }

  /** Grouping keeps exactly the additions, whatever their number, order and repetition. */
  lemma {:induction false} GroupIsExact<K>(needs: seq<Need<K>>, need: Need<K>)
    ensures WellGrouped(Group(needs))
    ensures Holds(Group(needs), need) <==> need in needs
  {
    if needs != [] {
      GroupIsExact(needs[..|needs| - 1], need);
      AddIsExact(Group(needs[..|needs| - 1]), needs[|needs| - 1], need);
    }
  }

  // ---------- renaming keys ----------

  function RenameNeeds<K, L>(needs: seq<Need<K>>, f: K -> L): (r: seq<Need<L>>)
    ensures |r| == |needs| && forall i :: 0 <= i < |r| ==> r[i] == Need(f(needs[i].key), needs[i].member)
  {
    seq(|needs|, i requires 0 <= i < |needs| => Need(f(needs[i].key), needs[i].member))
  }

  function RenameBuckets<K, L>(buckets: seq<Bucket<K>>, f: K -> L): (r: seq<Bucket<L>>)
    ensures |r| == |buckets| && forall i :: 0 <= i < |r| ==> r[i] == Bucket(f(buckets[i].key), buckets[i].members)
  {
    seq(|buckets|, i requires 0 <= i < |buckets| => Bucket(f(buckets[i].key), buckets[i].members))
  }

  lemma {:induction false} AddFollowsRenaming<K, L>(buckets: seq<Bucket<K>>, need: Need<K>, f: K -> L)
    requires forall i :: 0 <= i < |buckets| ==> (f(buckets[i].key) == f(need.key) ==> buckets[i].key == need.key)
    ensures Add(RenameBuckets(buckets, f), Need(f(need.key), need.member)) == RenameBuckets(Add(buckets, need), f)
  {
    if buckets != [] {
      assert RenameBuckets(buckets, f)[1..] == RenameBuckets(buckets[1..], f);
      if buckets[0].key != need.key {
        AddFollowsRenaming(buckets[1..], need, f);
        assert RenameBuckets(Add(buckets, need), f)
            == [Bucket(f(buckets[0].key), buckets[0].members)] + RenameBuckets(Add(buckets[1..], need), f);
      }
    }
  }

  /** Renaming keys one-to-one before grouping is renaming them after. */
  lemma {:induction false} GroupFollowsRenaming<K, L>(needs: seq<Need<K>>, f: K -> L)
    requires forall i, j :: 0 <= i < |needs| && 0 <= j < |needs| && f(needs[i].key) == f(needs[j].key)
                            ==> needs[i].key == needs[j].key
    ensures Group(RenameNeeds(needs, f)) == RenameBuckets(Group(needs), f)
  {
    if needs != [] {
      var front, last := needs[..|needs| - 1], needs[|needs| - 1];
      assert forall i :: 0 <= i < |front| ==> front[i] == needs[i];
      GroupFollowsRenaming(front, f);
      assert RenameNeeds(needs, f)[..|needs| - 1] == RenameNeeds(front, f);
      var buckets := Group(front);
      forall i | 0 <= i < |buckets| && f(buckets[i].key) == f(last.key) ensures buckets[i].key == last.key {
        GroupIsExact(front, last);
        var member :| member in buckets[i].members;
        GroupIsExact(front, Need(buckets[i].key, member));
        var k :| 0 <= k < |front| && front[k] == Need(buckets[i].key, member);
      }
      AddFollowsRenaming(buckets, last, f);
    }
  }

  // ---------- the map behind the loops ----------

  /** The buckets an insertion-ordered map stands for. */
  function BucketsOf<K(==)>(order: seq<K>, groups: map<K, set<string>>): (r: seq<Bucket<K>>)
    requires forall key :: key in order ==> key in groups
    ensures |r| == |order| && forall i :: 0 <= i < |r| ==> r[i] == Bucket(order[i], groups[order[i]])
  {
    seq(|order|, i requires 0 <= i < |order| => Bucket(order[i], groups[order[i]]))
  }

  ghost predicate Represents<K>(order: seq<K>, groups: map<K, set<string>>, needs: seq<Need<K>>) {
    Distinct(order) && groups.Keys == Elements(order) && BucketsOf(order, groups) == Group(needs)
  }

  lemma OpenGroup<K>(order: seq<K>, groups: map<K, set<string>>, needs: seq<Need<K>>, need: Need<K>)
    requires Represents(order, groups, needs) && need.key !in groups
    ensures Represents(order + [need.key], groups[need.key := {need.member}], needs + [need])
  {
    assert (needs + [need])[..|needs|] == needs;
    AddNewBucket(BucketsOf(order, groups), need);
  }

  lemma WidenGroup<K>(order: seq<K>, groups: map<K, set<string>>, needs: seq<Need<K>>, need: Need<K>)
    requires Represents(order, groups, needs) && need.key in groups
    ensures Represents(order, groups[need.key := groups[need.key] + {need.member}], needs + [need])
  {
    assert (needs + [need])[..|needs|] == needs;
    GroupIsExact(needs, need);
    var k :| 0 <= k < |order| && order[k] == need.key;
    AddToBucket(BucketsOf(order, groups), need, k);
    assert BucketsOf(order, groups[need.key := groups[need.key] + {need.member}])
        == Add(BucketsOf(order, groups), need);
  }

  /** Adds one member to its group, opening the group when it is the first. */
  method AddMember<K(==)>(order: seq<K>, groups: map<K, set<string>>, key: K, member: string, ghost needs: seq<Need<K>>)
    returns (order': seq<K>, groups': map<K, set<string>>)
    requires Represents(order, groups, needs)
    ensures Represents(order', groups', needs + [Need(key, member)])
  {
    order' := order;
    if key in groups {
      WidenGroup(order, groups, needs, Need(key, member));
      groups' := groups[key := groups[key] + {member}];
    } else {
      OpenGroup(order, groups, needs, Need(key, member));
      order' := order + [key];
      groups' := groups[key := {member}];
    }
  }
}
