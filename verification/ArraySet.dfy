/** The string table of a source map: an array with a reverse index. */
module ArraySets {
  import opened Wrappers

  // The keys of the reverse index carry a prefix, so that no string is mistaken for a built-in property.
  function ToSetString(s: string): string {
    "$" + s
  }

  // The position of the first occurrence.
  function FirstIndex(table: seq<string>, s: string): (k: nat)
    requires s in table
    ensures k < |table| && table[k] == s && s !in table[..k]
  {
    if table[0] == s then 0
    else
      assert table == [table[0]] + table[1..];
      var k := FirstIndex(table[1..], s) + 1;
      assert table[..k] == [table[0]] + table[1..][..k - 1];
      k
  }

  lemma {:induction false} FirstIndexUnique(table: seq<string>, s: string, k: nat)
    requires k < |table| && table[k] == s && s !in table[..k]
    ensures FirstIndex(table, s) == k
  {
    if k == 0 {
    } else {
      assert table[0] in table[..k] && forall x | x in table[1..][..k - 1] :: x in table[..k];
      FirstIndexUnique(table[1..], s, k - 1);
    }
  }

  predicate Distinct(table: seq<string>) {
    forall i, j :: 0 <= i < j < |table| ==> table[i] != table[j]
  }

  // One addition, and the additions of a whole list, as functions on the array.
  function Added(table: seq<string>, s: string, allowDuplicates: bool): seq<string> {
    if s !in table || allowDuplicates then table + [s] else table
  }

  function AddedAll(table: seq<string>, ss: seq<string>, allowDuplicates: bool): seq<string>
    decreases |ss|
  {
    if ss == [] then table else AddedAll(Added(table, ss[0], allowDuplicates), ss[1..], allowDuplicates)
  }

  // Without duplicates allowed, adding keeps the elements distinct and keeps exactly the strings given.
  lemma {:induction false} AddedAllDistinct(table: seq<string>, ss: seq<string>)
    requires Distinct(table)
    ensures Distinct(AddedAll(table, ss, false))
    ensures forall s :: s in AddedAll(table, ss, false) <==> s in table || s in ss
    ensures table <= AddedAll(table, ss, false)
    decreases |ss|
  {
    if ss == [] {
    } else {
      AddedAllDistinct(Added(table, ss[0], false), ss[1..]);
      assert ss == [ss[0]] + ss[1..];
    }
  }

  // Re-adding a table with duplicates allowed copies it.
  lemma {:induction false} AddedAllCopies(table: seq<string>, ss: seq<string>)
    ensures AddedAll(table, ss, true) == table + ss
    decreases |ss|
  {
    if ss == [] {
    } else {
      AddedAllCopies(table + [ss[0]], ss[1..]);
    }
  }

  class ArraySet {
    var members: seq<string>
    var indexes: map<string, nat>

    ghost predicate Valid()
      reads this
    {
      && (forall s :: s in members <==> ToSetString(s) in indexes)
      && (forall s :: s in members ==> indexes[ToSetString(s)] == FirstIndex(members, s))
    }

    constructor ()
      ensures Valid() && members == []
    {
      members := [];
      indexes := map[];
    }

    constructor FromArray(ss: seq<string>, allowDuplicates: bool)
      ensures Valid() && members == AddedAll([], ss, allowDuplicates)
    {
      members := [];
      indexes := map[];
      new;
      for i := 0 to |ss|
        invariant Valid()
        invariant AddedAll(members, ss[i..], allowDuplicates) == AddedAll([], ss, allowDuplicates)
      {
        assert ss[i..][0] == ss[i] && ss[i..][1..] == ss[i + 1..];
        Add(ss[i], allowDuplicates);
      }
    }

    method Add(s: string, allowDuplicates: bool)
      requires Valid()
      modifies this
      ensures Valid()
      ensures members == Added(old(members), s, allowDuplicates)
    {
      var isDuplicate := Has(s);
      var idx := |members|;
      ghost var before := members;
      if !isDuplicate || allowDuplicates {
        members := members + [s];
      }
      if !isDuplicate {
        indexes := indexes[ToSetString(s) := idx];
      }
      forall t | t in members
        ensures ToSetString(t) in indexes && indexes[ToSetString(t)] == FirstIndex(members, t)
      {
        assert ToSetString(s)[1..] == s && ToSetString(t)[1..] == t;
        if t in before {
          var k := FirstIndex(before, t);
          assert members[..k] == before[..k];
          FirstIndexUnique(members, t, k);
        } else {
          assert members[..idx] == before;
          FirstIndexUnique(members, t, idx);
        }
      }
      forall t | ToSetString(t) in indexes
        ensures t in members
      {
        assert ToSetString(s)[1..] == s && ToSetString(t)[1..] == t;
      }
    }

    predicate Has(s: string)
      requires Valid()
      reads this
      ensures Has(s) <==> s in members
    {
      ToSetString(s) in indexes
    }

    function IndexOf(s: string): (r: Result<nat>)
      requires Valid()
      reads this
      ensures r == if s in members then Ok(FirstIndex(members, s)) else Err("is not in the set")
    {
      if Has(s) then Ok(indexes[ToSetString(s)]) else Err("is not in the set")
    }

    function At(idx: int): (r: Result<string>)
      reads this
      ensures 0 <= idx < |members| ==> r == Ok(members[idx])
      ensures r.Err? <==> idx < 0 || |members| <= idx
    {
      if 0 <= idx < |members| then Ok(members[idx]) else Err("No element indexed by that number")
    }

    lemma AtIndexOf(s: string)
      requires Valid() && s in members
      ensures IndexOf(s).Ok? && At(IndexOf(s).value) == Ok(s)
    {
    }
  }
}
