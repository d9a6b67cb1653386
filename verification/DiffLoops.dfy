/** The producer and the consumer as loops over dict items. */
module DiffLoops {
  import opened Trees
  import opened Diffs
  import opened RoundTrips

  // ---------- Producer ----------

  /** The entries of the diff collected for the deletion command and the visited keys. */
  ghost predicate Collected(result: map<string, Tree>, prev: Tree, cur: Tree, visited: set<string>)
    requires prev.Dict? && cur.Dict?
  {
    && (DELETE in result <==> Gone(prev, cur) != {})
    && (DELETE in result ==> result[DELETE] == List(EscapedNames(KeySeq(Gone(prev, cur)))))
    && (forall e :: e in result && e != DELETE ==> e == EscapeKey(Unescape(e)) && Unescape(e) in visited)
    && (forall k :: k in visited ==> (EscapeKey(k) in result <==> Changed(prev, cur, k)))
    && (forall k :: k in visited && Changed(prev, cur, k) ==> result[EscapeKey(k)] == SubDiff(prev, cur, k))
  }

  lemma CollectedAll(result: map<string, Tree>, prev: Tree, cur: Tree)
    requires prev.Dict? && cur.Dict? && Collected(result, prev, cur, cur.entries.Keys)
    ensures result == DiffEntries(prev, cur)
  {
    var d := DiffEntries(prev, cur);
    hide DiffEntries, Diff, EscapedNames;
    forall e ensures e in result <==> e in d
             ensures e in result && e in d ==> result[e] == d[e]
    {
      if e == DELETE {
        EntriesOf(prev, cur, e);
        if Gone(prev, cur) != {} { DeletionEntry(prev, cur); }
      } else if e == EscapeKey(Unescape(e)) {
        EntriesOf(prev, cur, Unescape(e));
      } else if e in d {
        OnlyEscapedKeys(prev, cur, e);
      }
    }
  }

  method ComputeDiff(prev: Tree, cur: Tree) returns (r: Option<Tree>)
    ensures r == Diff(prev, cur)
    decreases cur
  {
    if prev.Dict? && cur.Dict? {
      var result := CollectDiff(prev, cur);
      if result == map[] { return None; }
      return Some(Dict(result));
    }
    if prev == cur { return None; }
    return Some(cur);
  }

  /** The deletion command first, then one entry for every key that is new or differs. */
  method CollectDiff(prev: Tree, cur: Tree) returns (result: map<string, Tree>)
    requires prev.Dict? && cur.Dict?
    ensures result == DiffEntries(prev, cur)
    decreases cur, 0
  {
    hide DiffEntries, EscapedNames, Visited, KeySeq, Collected, Diff, Gone;
    result := map[];
    var gone := set k | k in prev.entries && k !in cur.entries;
    if gone != {} {
      result := result[DELETE := List(EscapedNames(KeySeq(gone)))];
    }
    CollectNone(prev, cur, gone);
    VisitEnds(cur.entries.Keys);
    var keys := KeySeq(cur.entries.Keys);
    for i := 0 to |keys|
      invariant Collected(result, prev, cur, Visited(keys, i))
    {
      var key := keys[i];
      VisitNext(cur.entries.Keys, i);
      var entry: Option<Tree> := Some(cur.entries[key]);
      if key in prev.entries {
        entry := ComputeDiff(prev.entries[key], cur.entries[key]);
      }
      CollectOne(result, prev, cur, Visited(keys, i), key, entry);
      if entry.Some? {
        result := result[EscapeKey(key) := entry.value];
      }
    }
    CollectedAll(result, prev, cur);
  }

  lemma CollectNone(prev: Tree, cur: Tree, gone: set<string>)
    requires prev.Dict? && cur.Dict? && gone == set k | k in prev.entries && k !in cur.entries
    ensures Collected(if gone != {} then map[DELETE := List(EscapedNames(KeySeq(gone)))] else map[], prev, cur, {})
  {
    assert gone == Gone(prev, cur);
  }

  lemma CollectOne(result: map<string, Tree>, prev: Tree, cur: Tree, visited: set<string>, key: string, entry: Option<Tree>)
    requires prev.Dict? && cur.Dict? && Collected(result, prev, cur, visited) && key !in visited && key in cur.entries
    requires entry == if key in prev.entries then Diff(prev.entries[key], cur.entries[key]) else Some(cur.entries[key])
    ensures Collected(if entry.Some? then result[EscapeKey(key) := entry.value] else result, prev, cur, visited + {key})
  {
    hide Diff, EscapedNames, EscapeKey, Unescape, KeySeq, Gone;
    var next := if entry.Some? then result[EscapeKey(key) := entry.value] else result;
    assert Unescape(EscapeKey(key)) == key;
    assert EscapeKey(key) !in result;
    assert entry.Some? <==> Changed(prev, cur, key);
    forall k | k in visited + {key}
      ensures EscapeKey(k) in next <==> Changed(prev, cur, k)
      ensures Changed(prev, cur, k) ==> next[EscapeKey(k)] == SubDiff(prev, cur, k)
    {
      assert Unescape(EscapeKey(k)) == k;
    }
  }

  // ---------- Consumer ----------

  /** What the loop has made of the entry at k once it has visited the first i of its keys. */
  function EditedSoFar(o: Order, state: Tree, diff: Tree, keys: seq<string>, i: nat, k: string): Option<Tree>
    requires EditsDict(state, diff) && IsListing(keys, diff.entries.Keys) && i <= |keys|
  {
    var popped := DELETE in keys[..i] && k in Deletions(diff.entries).value;
    if k in keys[..i] && k != DELETE && k != INSERT then
      if popped && LeadsDelete(keys, k) then None else Assigned(o, state, diff, k)
    else if state.Dict? && k in state.entries && !popped then Some(state.entries[k])
    else None
  }

  ghost predicate Patched(o: Order, result: map<string, Tree>, state: Tree, diff: Tree, keys: seq<string>, i: nat)
    requires EditsDict(state, diff) && IsListing(keys, diff.entries.Keys) && i <= |keys|
  {
    && (forall j :: 0 <= j < i && keys[j] != DELETE && keys[j] != INSERT ==> Assigned(o, state, diff, keys[j]).Some?)
    && (forall k :: k in result <==> EditedSoFar(o, state, diff, keys, i, k).Some?)
    && (forall k :: k in result ==> EditedSoFar(o, state, diff, keys, i, k) == Some(result[k]))
  }

  method ApplyLoop(o: Order, state: Tree, diff: Tree) returns (r: Option<Tree>)
    ensures r == Apply(o, state, diff)
    decreases diff
  {
    if !diff.Dict? { return Some(diff); }
    if diff.entries == map[] { return Some(state); }
    if REPLACE in diff.entries { return Some(diff.entries[REPLACE]); }
    if state.List? {
      if !IsListPatch(diff.entries.Keys) { return Some(diff); }
      return None;
    }
    var names := Deletions(diff.entries);
    if names.None? { return None; }
    r := PatchDict(o, state, diff, names.value);
  }

  /** One pass over the keys in their order: deletions, assignments and nested patches as they come. */
  method PatchDict(o: Order, state: Tree, diff: Tree, names: set<string>) returns (r: Option<Tree>)
    requires EditsDict(state, diff) && Deletions(diff.entries) == Some(names)
    ensures r == Apply(o, state, diff)
    decreases diff, 0
  {
    hide Apply, Deletions, Patched, Edited, IsListing;
    var result := if state.Dict? then state.entries else map[];
    var keys := o.Visit(diff.entries.Keys);
    PatchNone(o, state, diff, keys);
    for i := 0 to |keys|
      invariant Patched(o, result, state, diff, keys, i)
    {
      var key := keys[i];
      KeyListed(keys, diff.entries.Keys, i);
      if key == DELETE {
        PatchDeletions(o, result, state, diff, keys, i);
        result := PopAll(result, names);
      } else if key == INSERT {
        PatchSkip(o, result, state, diff, keys, i);
      } else {
        PatchKey(o, result, state, diff, keys, i);
        var value := Some(diff.entries[key]);
        if key in result {
          value := ApplyLoop(o.Under(key), result[key], diff.entries[key]);
        }
        if value.None? {
          EditSucceeds(o, state, diff);
          return None;
        }
        result := result[key := value.value];
      }
    }
    PatchedAll(o, result, state, diff, keys);
    return Some(Dict(result));
  }

  lemma KeyListed(keys: seq<string>, all: set<string>, i: nat)
    requires IsListing(keys, all) && i < |keys|
    ensures keys[i] in all && keys[i] !in keys[..i]
    ensures forall k :: k in keys[..i + 1] <==> k in keys[..i] || k == keys[i]
  {
    assert keys[i] in keys;
    assert keys[..i + 1] == keys[..i] + [keys[i]];
  }

  /** A key leads the deletions exactly when it has been visited by the time they are. */
  lemma {:induction false} LeadsWhenVisited(keys: seq<string>, i: nat, k: string)
    requires i < |keys| && keys[i] !in keys[..i]
    ensures keys[i] == DELETE ==> (LeadsDelete(keys, k) <==> k in keys[..i])
    ensures DELETE in keys[..i] && k == keys[i] ==> !LeadsDelete(keys, k)
    ensures DELETE !in keys[..i + 1] && k in keys[..i + 1] ==> LeadsDelete(keys, k)
    decreases |keys|
  {
    if i > 0 {
      assert keys[..i] == [keys[0]] + keys[1..][..i - 1] && keys[..i + 1] == [keys[0]] + keys[1..][..i];
      LeadsWhenVisited(keys[1..], i - 1, k);
    }
    if DELETE in keys[..i] && k == keys[i] && keys[0] == DELETE {
      assert !LeadsDelete(keys, k);
    }
  }

  lemma PatchNone(o: Order, state: Tree, diff: Tree, keys: seq<string>)
    requires EditsDict(state, diff) && IsListing(keys, diff.entries.Keys)
    ensures Patched(o, if state.Dict? then state.entries else map[], state, diff, keys, 0)
  {
  }

  lemma PatchDeletions(o: Order, result: map<string, Tree>, state: Tree, diff: Tree, keys: seq<string>, i: nat)
    requires EditsDict(state, diff) && IsListing(keys, diff.entries.Keys) && i < |keys| && keys[i] == DELETE
    requires Patched(o, result, state, diff, keys, i)
    ensures Patched(o, result - Deletions(diff.entries).value, state, diff, keys, i + 1)
  {
    hide Deletions, Assigned, LeadsDelete, IsListing;
    KeyListed(keys, diff.entries.Keys, i);
    forall k ensures EditedSoFar(o, state, diff, keys, i + 1, k)
                  == if k in Deletions(diff.entries).value then None else EditedSoFar(o, state, diff, keys, i, k)
    {
      LeadsWhenVisited(keys, i, k);
    }
    hide EditedSoFar;
  }

  lemma PatchSkip(o: Order, result: map<string, Tree>, state: Tree, diff: Tree, keys: seq<string>, i: nat)
    requires EditsDict(state, diff) && IsListing(keys, diff.entries.Keys) && i < |keys| && keys[i] == INSERT
    requires Patched(o, result, state, diff, keys, i)
    ensures Patched(o, result, state, diff, keys, i + 1)
  {
    hide Deletions, Assigned, LeadsDelete, IsListing;
    KeyListed(keys, diff.entries.Keys, i);
    assert forall k :: EditedSoFar(o, state, diff, keys, i + 1, k) == EditedSoFar(o, state, diff, keys, i, k);
    hide EditedSoFar;
  }

  /** Patching one more key. */
  lemma PatchKey(o: Order, result: map<string, Tree>, state: Tree, diff: Tree, keys: seq<string>, i: nat)
    requires EditsDict(state, diff) && keys == o.Visit(diff.entries.Keys) && i < |keys|
    requires keys[i] != DELETE && keys[i] != INSERT && keys[i] in diff.entries
    requires Patched(o, result, state, diff, keys, i)
    ensures var key := keys[i];
      var value := if key in result then Apply(o.Under(key), result[key], diff.entries[key]) else Some(diff.entries[key]);
      && Assigned(o, state, diff, key) == value
      && (value.Some? ==> Patched(o, result[key := value.value], state, diff, keys, i + 1))
  {
    hide Apply, Deletions, LeadsDelete, IsListing, EditedSoFar, Found, Assigned, EditsDict;
    var key := keys[i];
    KeyValue(o, result, state, diff, keys, i);
    var value := Assigned(o, state, diff, key);
    if value.Some? {
      forall k ensures EditedSoFar(o, state, diff, keys, i + 1, k)
                    == if k == key then value else EditedSoFar(o, state, diff, keys, i, k)
      {
        SoFarNext(o, state, diff, keys, i, k);
      }
    }
  }

  lemma KeyValue(o: Order, result: map<string, Tree>, state: Tree, diff: Tree, keys: seq<string>, i: nat)
    requires EditsDict(state, diff) && keys == o.Visit(diff.entries.Keys) && i < |keys|
    requires keys[i] != DELETE && keys[i] in diff.entries && Patched(o, result, state, diff, keys, i)
    ensures var key := keys[i];
      Assigned(o, state, diff, key)
      == if key in result then Apply(o.Under(key), result[key], diff.entries[key]) else Some(diff.entries[key])
  {
    hide Apply, Deletions, LeadsDelete, IsListing, EditedSoFar, Found;
    FoundThere(o, state, diff, keys, i);
    assert keys[i] in result <==> EditedSoFar(o, state, diff, keys, i, keys[i]).Some?;
  }

  lemma SoFarNext(o: Order, state: Tree, diff: Tree, keys: seq<string>, i: nat, k: string)
    requires EditsDict(state, diff) && IsListing(keys, diff.entries.Keys) && i < |keys|
    requires keys[i] != DELETE && keys[i] != INSERT && keys[i] in diff.entries
    ensures EditedSoFar(o, state, diff, keys, i + 1, k)
         == if k == keys[i] then Assigned(o, state, diff, k) else EditedSoFar(o, state, diff, keys, i, k)
  {
    hide Deletions, LeadsDelete, IsListing, Assigned;
    KeyListed(keys, diff.entries.Keys, i);
    LeadsWhenVisited(keys, i, k);
  }

  /** A key not yet visited holds what Found says. */
  lemma FoundThere(o: Order, state: Tree, diff: Tree, keys: seq<string>, i: nat)
    requires EditsDict(state, diff) && keys == o.Visit(diff.entries.Keys) && i < |keys| && keys[i] != DELETE
    ensures EditedSoFar(o, state, diff, keys, i, keys[i]) == Found(o, state, diff, keys[i])
  {
    hide Deletions, Assigned, LeadsDelete, IsListing;
    KeyListed(keys, diff.entries.Keys, i);
    LeadsWhenVisited(keys, i, keys[i]);
    DeletesSomewhere(diff, keys);
  }

  lemma DeletesSomewhere(diff: Tree, keys: seq<string>)
    requires diff.Dict? && Deletions(diff.entries).Some? && IsListing(keys, diff.entries.Keys)
    ensures DELETE !in keys ==> Deletions(diff.entries).value == {}
  {
  }

  lemma SoFarEnds(o: Order, state: Tree, diff: Tree, keys: seq<string>, k: string)
    requires EditsDict(state, diff) && keys == o.Visit(diff.entries.Keys)
    ensures EditedSoFar(o, state, diff, keys, |keys|, k) == Edited(o, state, diff, k)
  {
    hide Apply, Deletions, LeadsDelete, Assigned, IsListing;
    assert keys[..|keys|] == keys;
    DeletesSomewhere(diff, keys);
    AllListed(keys, diff.entries.Keys, k);
  }

  lemma AllListed(keys: seq<string>, all: set<string>, k: string)
    requires IsListing(keys, all)
    ensures k in keys <==> k in all
    ensures k in all ==> exists j :: 0 <= j < |keys| && keys[j] == k
  {
  }

  lemma PatchedAll(o: Order, result: map<string, Tree>, state: Tree, diff: Tree, keys: seq<string>)
    requires EditsDict(state, diff) && keys == o.Visit(diff.entries.Keys)
    requires Patched(o, result, state, diff, keys, |keys|)
    ensures Apply(o, state, diff) == Some(Dict(result))
  {
    hide Apply, Deletions, Assigned, Edited, EditedSoFar, IsListing;
    forall k | k in diff.entries && k != DELETE && k != INSERT ensures Assigned(o, state, diff, k).Some? {
      AllListed(keys, diff.entries.Keys, k);
    }
    EditSucceeds(o, state, diff);
    EditedEntry(o, state, diff, DELETE);
    var r := Apply(o, state, diff).value;
    forall k ensures k in r.entries <==> k in result
             ensures k in r.entries ==> r.entries[k] == result[k]
    {
      EditedEntry(o, state, diff, k);
      SoFarEnds(o, state, diff, keys, k);
    }
    assert r.entries == result;
  }

  /** Pops every name; names that are not there are ignored. */
  method PopAll(entries: map<string, Tree>, names: set<string>) returns (result: map<string, Tree>)
    ensures result == entries - names
  {
    hide KeySeq, Visited;
    result := entries;
    VisitEnds(names);
    var keys := KeySeq(names);
    for i := 0 to |keys|
      invariant result == entries - Visited(keys, i)
    {
      VisitNext(names, i);
      result := result - {keys[i]};
    }
  }
}
