/**
  Underscore's `_.groupBy(list, f)` over a list whose elements each carry an
  optional group key (None for the elements the source filtered out first):
  one group per key, created where the key first appears, holding the
  elements with that key in list order.
*/
module Grouping {
  import opened Wrappers
  import opened JsText

  /** Element `i` belongs to group `key`. */
  predicate InGroup(tags: seq<Option<string>>, i: int, key: string)
  {
    0 <= i < |tags| && tags[i] == Some(key)
  }

  /** The group keys created from tags[..n], in creation order. */
  function GroupKeys(tags: seq<Option<string>>, n: nat): (ks: seq<string>)
    requires n <= |tags|
    ensures forall p, q :: 0 <= p < q < |ks| ==> ks[p] != ks[q]
    ensures forall key :: key in ks <==> exists i :: 0 <= i < n && InGroup(tags, i, key)
  {
    if n == 0 then []
    else
      var ks := GroupKeys(tags, n - 1);
      var t := tags[n - 1];
      assert t.Some? ==> InGroup(tags, n - 1, t.value);
      if t.Some? && t.value !in ks then ks + [t.value] else ks
  }

  /** The group `key` built from tags[..n]: the indices of its elements, ascending. */
  function GroupMembers(tags: seq<Option<string>>, n: nat, key: string): (ms: seq<nat>)
    requires n <= |tags|
    ensures forall t :: 0 <= t < |ms| ==> ms[t] < n && InGroup(tags, ms[t], key)
    ensures forall i :: 0 <= i < n && InGroup(tags, i, key) ==> i in ms
    ensures forall s, t :: 0 <= s < t < |ms| ==> ms[s] < ms[t]
  {
    if n == 0 then []
    else GroupMembers(tags, n - 1, key) + (if InGroup(tags, n - 1, key) then [n - 1] else [])
  }

  /** Group `key` has an element before index `i`. */
  predicate HasElementBefore(tags: seq<Option<string>>, key: string, i: int)
  {
    exists m :: 0 <= m < i && InGroup(tags, m, key)
  }

  /** A group created before another has an element before any of the other's. */
  lemma {:induction false} GroupKeysOrder(tags: seq<Option<string>>, n: nat)
    requires n <= |tags|
    ensures forall p, q, i :: 0 <= p < q < |GroupKeys(tags, n)| && 0 <= i < n && InGroup(tags, i, GroupKeys(tags, n)[q]) ==>
      HasElementBefore(tags, GroupKeys(tags, n)[p], i)
  {
    if n > 0 {
      GroupKeysOrder(tags, n - 1);
      var ks0 := GroupKeys(tags, n - 1);
      var ks := GroupKeys(tags, n);
      assert |ks| <= |ks0| + 1 && ks[..|ks0|] == ks0;
      forall p, q, i | 0 <= p < q < |ks| && 0 <= i < n && InGroup(tags, i, ks[q])
        ensures HasElementBefore(tags, ks[p], i)
      {
        assert ks[p] == ks0[p] && ks0[p] in ks0;
        if i == n - 1 {
          var m :| 0 <= m < n - 1 && InGroup(tags, m, ks[p]);
        } else {
          assert ks[q] in ks0;
          assert ks[q] == ks0[q];
        }
      }
    }
  }

  /** The first element of the group is its least index. */
  lemma FirstMemberIsLeast(tags: seq<Option<string>>, key: string, i: int)
    requires InGroup(tags, i, key)
    ensures |GroupMembers(tags, |tags|, key)| > 0 && GroupMembers(tags, |tags|, key)[0] <= i
  {
    var ms := GroupMembers(tags, |tags|, key);
    assert i in ms;
  }

  /** Some element of group `key` is marked: `_.find(group, pred)` succeeds. */
  predicate MembersMarked(marks: seq<bool>, ms: seq<nat>)
  {
    exists t :: 0 <= t < |ms| && ms[t] < |marks| && marks[ms[t]]
  }

  /**
    `_.find(groups, g => _.find(g, pred))` over the groups in the order `ks`:
    the position of the first group with a marked element.
  */
  function FindMarkedGroup(tags: seq<Option<string>>, marks: seq<bool>, ks: seq<string>): (r: Option<nat>)
    ensures r.Some? ==> r.value < |ks| && MembersMarked(marks, GroupMembers(tags, |tags|, ks[r.value]))
    ensures r.Some? ==> forall p :: 0 <= p < r.value ==> !MembersMarked(marks, GroupMembers(tags, |tags|, ks[p]))
    ensures r.None? ==> forall p :: 0 <= p < |ks| ==> !MembersMarked(marks, GroupMembers(tags, |tags|, ks[p]))
  {
    var at := (p: nat) => p < |ks| && MembersMarked(marks, GroupMembers(tags, |tags|, ks[p]));
    var r := FirstFrom(at, 0, |ks|);
    assert forall p: nat :: p < |ks| ==> at(p) == MembersMarked(marks, GroupMembers(tags, |tags|, ks[p]));
    r
  }

  /** `_.find(group, pred)`: the position in `ms` of the first flagged element. */
  function FirstFlagged(flags: seq<bool>, ms: seq<nat>): (r: Option<nat>)
    ensures r.Some? ==> r.value < |ms| && ms[r.value] < |flags| && flags[ms[r.value]]
    ensures r.Some? ==> forall t :: 0 <= t < r.value && ms[t] < |flags| ==> !flags[ms[t]]
    ensures r.None? ==> forall t :: 0 <= t < |ms| && ms[t] < |flags| ==> !flags[ms[t]]
  {
    var at := (t: nat) => t < |ms| && ms[t] < |flags| && flags[ms[t]];
    var r := FirstFrom(at, 0, |ms|);
    assert forall t: nat :: t < |ms| ==> at(t) == (ms[t] < |flags| && flags[ms[t]]);
    r
  }

  // The same selection described on the flat list, without building groups.

  /** Some element tagged `key` is marked. */
  ghost predicate GroupMarked(tags: seq<Option<string>>, marks: seq<bool>, key: string)
  {
    exists i :: InGroup(tags, i, key) && i < |marks| && marks[i]
  }

  /** No element before index `f` belongs to a group with a marked element. */
  ghost predicate NoMarkedGroupBefore(tags: seq<Option<string>>, marks: seq<bool>, f: int)
  {
    forall i :: 0 <= i < f && i < |tags| && tags[i].Some? ==> !GroupMarked(tags, marks, tags[i].value)
  }

  /**
    Group `key` has a marked element, and every element before its first one
    belongs to a group without: it is the first marked group in list order.
  */
  ghost predicate IsFirstMarkedGroup(tags: seq<Option<string>>, marks: seq<bool>, key: string)
  {
    GroupMarked(tags, marks, key) && exists f :: InGroup(tags, f, key) && NoMarkedGroupBefore(tags, marks, f)
  }

  /** Element `j` is flagged, and no earlier element of its group is. */
  ghost predicate IsFirstFlaggedInGroup(tags: seq<Option<string>>, flags: seq<bool>, j: int)
  {
    && 0 <= j < |tags| && j < |flags| && tags[j].Some? && flags[j]
    && forall i :: 0 <= i < j && tags[i] == tags[j] ==> !flags[i]
  }

  /** A group is marked exactly when it was created and one of its members is marked. */
  lemma GroupMarkedIffMembers(tags: seq<Option<string>>, marks: seq<bool>, key: string)
    requires |marks| == |tags|
    ensures GroupMarked(tags, marks, key) <==>
      key in GroupKeys(tags, |tags|) && MembersMarked(marks, GroupMembers(tags, |tags|, key))
  {
    var ms := GroupMembers(tags, |tags|, key);
    if GroupMarked(tags, marks, key) {
      var i :| InGroup(tags, i, key) && i < |marks| && marks[i];
      assert i in ms;
      var t :| 0 <= t < |ms| && ms[t] == i;
    }
    if MembersMarked(marks, ms) {
      var t :| 0 <= t < |ms| && ms[t] < |marks| && marks[ms[t]];
      assert InGroup(tags, ms[t], key);
    }
  }

  /** At most one group is the first marked group. */
  lemma FirstMarkedGroupUnique(tags: seq<Option<string>>, marks: seq<bool>, k1: string, k2: string)
    requires IsFirstMarkedGroup(tags, marks, k1) && IsFirstMarkedGroup(tags, marks, k2)
    ensures k1 == k2
  {
    var f1 :| InGroup(tags, f1, k1) && NoMarkedGroupBefore(tags, marks, f1);
    var f2 :| InGroup(tags, f2, k2) && NoMarkedGroupBefore(tags, marks, f2);
  }

  /** A group with an element before the found group's first one was searched earlier and is not marked. */
  lemma EarlierGroupNotMarked(tags: seq<Option<string>>, marks: seq<bool>, p: nat, i: nat)
    requires |marks| == |tags|
    requires FindMarkedGroup(tags, marks, GroupKeys(tags, |tags|)) == Some(p)
    requires i < |tags| && tags[i].Some?
    requires |GroupMembers(tags, |tags|, GroupKeys(tags, |tags|)[p])| > 0
    requires i < GroupMembers(tags, |tags|, GroupKeys(tags, |tags|)[p])[0]
    ensures !GroupMarked(tags, marks, tags[i].value)
  {
    var ks := GroupKeys(tags, |tags|);
    var k := tags[i].value;
    assert InGroup(tags, i, k) && k in ks;
    var q :| 0 <= q < |ks| && ks[q] == k;
    assert q != p by {
      FirstMemberIsLeast(tags, k, i);
    }
    assert !(p < q) by {
      if p < q {
        GroupKeysOrder(tags, |tags|);
        assert HasElementBefore(tags, ks[p], i);
        var m :| 0 <= m < i && InGroup(tags, m, ks[p]);
        FirstMemberIsLeast(tags, ks[p], m);
      }
    }
    assert !MembersMarked(marks, GroupMembers(tags, |tags|, k));
    GroupMarkedIffMembers(tags, marks, k);
  }

  /** The group the search finds is the first marked group. */
  lemma FoundGroupIsFirstMarked(tags: seq<Option<string>>, marks: seq<bool>, p: nat)
    requires |marks| == |tags|
    requires FindMarkedGroup(tags, marks, GroupKeys(tags, |tags|)) == Some(p)
    ensures p < |GroupKeys(tags, |tags|)|
    ensures IsFirstMarkedGroup(tags, marks, GroupKeys(tags, |tags|)[p])
  {
    var ks := GroupKeys(tags, |tags|);
    var key := ks[p];
    var ms := GroupMembers(tags, |tags|, key);
    GroupMarkedIffMembers(tags, marks, key);
    var i0 :| InGroup(tags, i0, key) && i0 < |marks| && marks[i0];
    FirstMemberIsLeast(tags, key, i0);
    var f := ms[0];
    forall i | 0 <= i < f && i < |tags| && tags[i].Some?
      ensures !GroupMarked(tags, marks, tags[i].value)
    {
      EarlierGroupNotMarked(tags, marks, p, i);
    }
    assert InGroup(tags, f, key) && NoMarkedGroupBefore(tags, marks, f);
  }

  /**
    Searching the groups in creation order for a marked one and then taking
    the group's first flagged element finds the first flagged element of the
    first marked group; finding nothing means that group has no flagged
    element (or no group is marked).
  */
  lemma SelectionOnFlatList(tags: seq<Option<string>>, marks: seq<bool>, flags: seq<bool>)
    requires |marks| == |tags| && |flags| == |tags|
    ensures var ks := GroupKeys(tags, |tags|);
      match FindMarkedGroup(tags, marks, ks)
      case None =>
        forall key :: !GroupMarked(tags, marks, key)
      case Some(p) =>
        && p < |ks| && IsFirstMarkedGroup(tags, marks, ks[p])
        && var ms := GroupMembers(tags, |tags|, ks[p]);
           match FirstFlagged(flags, ms)
           case None => forall j :: InGroup(tags, j, ks[p]) ==> !flags[j]
           case Some(t) => t < |ms| && tags[ms[t]] == Some(ks[p]) && IsFirstFlaggedInGroup(tags, flags, ms[t])
  {
    var ks := GroupKeys(tags, |tags|);
    var found := FindMarkedGroup(tags, marks, ks);
    if found.Some? {
      FoundGroupIsFirstMarked(tags, marks, found.value);
      FirstFlaggedInGroup(tags, flags, ks[found.value]);
    } else {
      NothingFoundNothingMarked(tags, marks);
    }
  }

  /** The first flagged member of a group is the group's first flagged element in list order. */
  lemma FirstFlaggedInGroup(tags: seq<Option<string>>, flags: seq<bool>, key: string)
    requires |flags| == |tags|
    ensures var ms := GroupMembers(tags, |tags|, key);
      match FirstFlagged(flags, ms)
      case None => forall j :: InGroup(tags, j, key) ==> !flags[j]
      case Some(t) => t < |ms| && tags[ms[t]] == Some(key) && IsFirstFlaggedInGroup(tags, flags, ms[t])
  {
    var ms := GroupMembers(tags, |tags|, key);
    var first := FirstFlagged(flags, ms);
    if first.Some? {
      var j := ms[first.value];
      forall i | 0 <= i < j && tags[i] == tags[j]
        ensures !flags[i]
      {
        assert InGroup(tags, i, key) && i in ms;
        var t :| 0 <= t < |ms| && ms[t] == i;
      }
    } else {
      forall j | InGroup(tags, j, key)
        ensures !flags[j]
      {
        assert j in ms;
      }
    }
  }

  /** When the search finds no group, no element of any group is marked. */
  lemma NothingFoundNothingMarked(tags: seq<Option<string>>, marks: seq<bool>)
    requires |marks| == |tags|
    requires FindMarkedGroup(tags, marks, GroupKeys(tags, |tags|)).None?
    ensures forall key :: !GroupMarked(tags, marks, key)
  {
    var ks := GroupKeys(tags, |tags|);
    forall key
      ensures !GroupMarked(tags, marks, key)
    {
      GroupMarkedIffMembers(tags, marks, key);
      if key in ks {
        var q :| 0 <= q < |ks| && ks[q] == key;
      }
    }
  }
}
