/** The dictionary object, updated in place. */
module PdfDictionary {
  import opened Options
  import opened Symbols
  import opened Objects

  ghost predicate Listed<K>(keys: seq<K>, key: K) {
    exists i :: 0 <= i < |keys| && keys[i] == key
  }

  lemma {:induction false} SettingAgain(d: seq<Entry>, i: nat)
    requires i < |d| && forall j, k :: 0 <= j < k < |d| ==> d[j].key != d[k].key
    ensures SetEntry(d, d[i].key, d[i].val) == d
  {
    if i > 0 {
      assert d[0].key != d[i].key;
      SettingAgain(d[1..], i - 1);
    }
  }

  /** The key list has every key of the map once and no other key. */
  ghost predicate Consistent<K, V>(keys: seq<K>, dict: map<K, V>) {
    && (forall i, j :: 0 <= i < j < |keys| ==> keys[i] != keys[j])
    && (forall i :: 0 <= i < |keys| ==> keys[i] in dict)
    && (forall k :: k in dict ==> Listed(keys, k))
  }

  function EntriesOf(keys: seq<seq<byte>>, dict: map<seq<byte>, Obj>): (d: seq<Entry>)
    requires forall i :: 0 <= i < |keys| ==> keys[i] in dict
    ensures |d| == |keys|
    ensures forall i :: 0 <= i < |keys| ==> d[i].key == keys[i] && d[i].val == dict[keys[i]]
  {
    seq(|keys|, i requires 0 <= i < |keys| => Entry(keys[i], dict[keys[i]]))
  }

  lemma {:induction false} KeysOfEntries(keys: seq<seq<byte>>, dict: map<seq<byte>, Obj>, before: seq<seq<byte>>, d: seq<Entry>)
    requires forall i :: 0 <= i < |keys| ==> keys[i] in dict
    requires EntriesOf(keys, dict) == d && |before| == |d| && forall i :: 0 <= i < |d| ==> before[i] == d[i].key
    ensures keys == before
  {
    forall i | 0 <= i < |keys| ensures keys[i] == before[i] { assert d[i].key == keys[i]; }
  }

  /** A dictionary that is updated in place: values by key, and the keys in the order they were first set. */
  class PdfObjectDictionary {
    var dict: map<seq<byte>, Obj>
    var keys: seq<seq<byte>>

    ghost predicate Valid()
      reads this
    {
      Consistent(keys, dict)
    }

    /** The abstract value: the entries in key order. */
    function Entries(): (d: seq<Entry>)
      requires Valid()
      reads this
    {
      EntriesOf(keys, dict)
    }

    constructor ()
      ensures Valid() && Entries() == []
    {
      dict := map[];
      keys := [];
    }

    method Set(key: seq<byte>, val: Obj)
      requires Valid()
      modifies this
      ensures Valid()
      ensures Entries() == SetEntry(old(Entries()), key, val)
    {
      SetIsSetEntry(keys, dict, key, val);
      if key !in dict {
        keys := keys + [key];
      }
      dict := dict[key := val];
    }

    method Get(key: seq<byte>) returns (r: Option<Obj>)
      requires Valid()
      ensures r == Lookup(Entries(), key)
    {
      if key !in dict {
        EntriesLookup(Entries(), key);
        r := None;
      } else {
        assert Listed(keys, key);
        ghost var i :| 0 <= i < |keys| && keys[i] == key;
        LookupAtPosition(Entries(), i, key);
        r := Some(dict[key]);
      }
    }

    /** The key is dropped from the key list and from the map, and nothing else moves. */
    method Remove(key: seq<byte>)
      requires Valid()
      modifies this
      ensures Valid()
      ensures Entries() == Without(old(Entries()), key)
    {
      var idx := -1;
      for i := 0 to |keys|
        invariant idx == -1
        invariant forall j :: 0 <= j < i ==> keys[j] != key
      {
        if keys[i] == key {
          idx := i;
          break;
        }
      }
      if idx >= 0 {
        RemoveIsWithout(keys, dict, idx);
        keys := keys[..idx] + keys[idx + 1..];
        dict := dict - {key};
      } else {
        EntriesLookup(Entries(), key);
        WithoutAbsent(Entries(), key);
      }
    }

    /** One key of a dictionary is set, which does not change that dictionary, even when it is this one. */
    method SetFrom(another: PdfObjectDictionary, i: nat)
      requires Valid() && another.Valid() && i < |another.keys|
      modifies this
      ensures Valid() && another.Valid() && another.keys == old(another.keys) && another.Entries() == old(another.Entries())
      ensures Entries() == SetEntry(old(Entries()), old(another.Entries())[i].key, old(another.Entries())[i].val)
    {
      hide SetEntry;
      ghost var theirKeys, theirs := another.keys, another.Entries();
      SettingAgain(theirs, i);
      var key := another.keys[i];
      Set(key, another.dict[key]);
      if another == this { KeysOfEntries(keys, dict, theirKeys, theirs); }
    }

    /** Every key of the other dictionary is set, in its order; the other one may be this one. */
    method Merge(another: PdfObjectDictionary?)
      requires Valid() && (another != null ==> another.Valid())
      modifies this
      ensures Valid()
      ensures Entries() == if another == null then old(Entries()) else MergeEntries(old(Entries()), old(another.Entries()))
    {
      if another == null {
        return;
      }
      hide Consistent, EntriesOf, SetEntry;
      ghost var mine, theirs := Entries(), another.Entries();
      ghost var n := |another.keys|;
      for i := 0 to |another.keys|
        invariant Valid() && another.Valid() && |another.keys| == n && another.Entries() == theirs
        invariant MergeEntries(Entries(), theirs[i..]) == MergeEntries(mine, theirs)
      {
        assert theirs[i..][0] == theirs[i] && theirs[i..][1..] == theirs[i + 1..];
        SetFrom(another, i);
      }
    }
  }

  function MergeEntries(d: seq<Entry>, more: seq<Entry>): seq<Entry>
    decreases more
  {
    if more == [] then d else MergeEntries(SetEntry(d, more[0].key, more[0].val), more[1..])
  }

  /** After a merge the keys of the merged dictionary have its values, and the other keys keep theirs. */
  lemma {:induction false} MergeLookup(d: seq<Entry>, more: seq<Entry>, key: seq<byte>)
    requires DistinctKeys(more)
    ensures Lookup(MergeEntries(d, more), key) ==
      if Lookup(more, key).Some? then Lookup(more, key) else Lookup(d, key)
    decreases more
  {
    if more != [] {
      MergeLookup(SetEntry(d, more[0].key, more[0].val), more[1..], key);
      LookupAfterSet(d, more[0].key, more[0].val, key);
    }
  }

  /** Removing a key removes it for good, and no other key. */
  lemma {:induction false} LookupAfterRemove(d: seq<Entry>, key: seq<byte>, other: seq<byte>)
    requires DistinctKeys(d)
    ensures Lookup(Without(d, key), other) == if other == key then None else Lookup(d, other)
    ensures DistinctKeys(Without(d, key))
  {
    if d != [] {
      LookupAfterRemove(d[1..], key, other);
      LookupAfterRemove(d[1..], key, d[0].key);
    }
  }

  lemma {:induction false} AppendKey<K, V>(keys: seq<K>, dict: map<K, V>, key: K, val: V)
    requires Consistent(keys, dict)
    ensures Consistent(if key in dict then keys else keys + [key], dict[key := val])
  {
    var keys' := if key in dict then keys else keys + [key];
    forall k | k in dict[key := val] ensures Listed(keys', k) {
      if k == key && key !in dict {
        assert keys'[|keys|] == k;
      } else {
        assert Listed(keys, k);
        var i :| 0 <= i < |keys| && keys[i] == k;
        assert keys'[i] == k;
      }
    }
  }

  lemma {:induction false} DropKey<K, V>(keys: seq<K>, dict: map<K, V>, idx: nat)
    requires Consistent(keys, dict) && idx < |keys|
    ensures Consistent(keys[..idx] + keys[idx + 1..], dict - {keys[idx]})
  {
    var keys' := keys[..idx] + keys[idx + 1..];
    forall k | k in dict && k != keys[idx] ensures Listed(keys', k) {
      assert Listed(keys, k);
      var j :| 0 <= j < |keys| && keys[j] == k;
      assert keys'[if j < idx then j else j - 1] == k;
    }
  }

  lemma {:induction false} SetIsSetEntry(keys: seq<seq<byte>>, dict: map<seq<byte>, Obj>, key: seq<byte>, val: Obj)
    requires Consistent(keys, dict)
    ensures var keys' := if key in dict then keys else keys + [key];
      Consistent(keys', dict[key := val]) &&
      EntriesOf(keys', dict[key := val]) == SetEntry(EntriesOf(keys, dict), key, val)
  {
    AppendKey(keys, dict, key, val);
    if key in dict {
      assert Listed(keys, key);
      var i :| 0 <= i < |keys| && keys[i] == key;
      SetAtPosition(EntriesOf(keys, dict), i, key, val);
      OverwriteEntry(keys, dict, i, val);
    } else {
      EntriesLookup(EntriesOf(keys, dict), key);
      SetOfNewKeyAppends(EntriesOf(keys, dict), key, val);
      AppendEntry(keys, dict, key, val);
    }
  }

  lemma {:induction false} OverwriteEntry(keys: seq<seq<byte>>, dict: map<seq<byte>, Obj>, i: nat, val: Obj)
    requires Consistent(keys, dict) && i < |keys|
    ensures EntriesOf(keys, dict[keys[i] := val]) == EntriesOf(keys, dict)[i := Entry(keys[i], val)]
  {
  }

  lemma {:induction false} AppendEntry(keys: seq<seq<byte>>, dict: map<seq<byte>, Obj>, key: seq<byte>, val: Obj)
    requires Consistent(keys, dict) && key !in dict
    ensures EntriesOf(keys + [key], dict[key := val]) == EntriesOf(keys, dict) + [Entry(key, val)]
  {
    assert forall i :: 0 <= i < |keys| ==> keys[i] != key;
  }

  lemma {:induction false} RemoveIsWithout(keys: seq<seq<byte>>, dict: map<seq<byte>, Obj>, idx: nat)
    requires Consistent(keys, dict) && idx < |keys|
    ensures var keys', dict' := keys[..idx] + keys[idx + 1..], dict - {keys[idx]};
      Consistent(keys', dict') && EntriesOf(keys', dict') == Without(EntriesOf(keys, dict), keys[idx])
  {
    DropKey(keys, dict, idx);
    WithoutPosition(EntriesOf(keys, dict), idx, keys[idx]);
  }

  function Without(d: seq<Entry>, key: seq<byte>): seq<Entry> {
    if d == [] then [] else if d[0].key == key then d[1..] else [d[0]] + Without(d[1..], key)
  }

  lemma {:induction false} EntriesLookup(d: seq<Entry>, key: seq<byte>)
    requires forall i :: 0 <= i < |d| ==> d[i].key != key
    ensures Lookup(d, key) == None
  {
    if d != [] { EntriesLookup(d[1..], key); }
  }

  lemma {:induction false} WithoutAbsent(d: seq<Entry>, key: seq<byte>)
    requires Lookup(d, key) == None
    ensures Without(d, key) == d
  {
    if d != [] { WithoutAbsent(d[1..], key); }
  }

  lemma {:induction false} WithoutPosition(d: seq<Entry>, i: nat, key: seq<byte>)
    requires i < |d| && d[i].key == key && forall j :: 0 <= j < i ==> d[j].key != key
    ensures Without(d, key) == d[..i] + d[i + 1..]
  {
    if i > 0 {
      WithoutPosition(d[1..], i - 1, key);
      assert [d[0]] + d[1..][..i - 1] == d[..i];
    }
  }

  lemma {:induction false} LookupAtPosition(d: seq<Entry>, i: nat, key: seq<byte>)
    requires i < |d| && d[i].key == key && forall j :: 0 <= j < i ==> d[j].key != key
    ensures Lookup(d, key) == Some(d[i].val)
  {
    if i > 0 { LookupAtPosition(d[1..], i - 1, key); }
  }

  lemma {:induction false} SetAtPosition(d: seq<Entry>, i: nat, key: seq<byte>, val: Obj)
    requires i < |d| && d[i].key == key && forall j :: 0 <= j < i ==> d[j].key != key
    ensures SetEntry(d, key, val) == d[i := Entry(key, val)]
  {
    if i > 0 {
      SetAtPosition(d[1..], i - 1, key, val);
      assert d[i := Entry(key, val)] == [d[0]] + d[1..][i - 1 := Entry(key, val)];
    }
  }
}
