/** The flattened list of changes that is logged for a diff. */
module ChangeLists {
  import opened Trees
  import opened Diffs
  import opened RoundTrips
  import opened Absorption
  import opened Redelivery

  datatype Kind = Add | Update | Delete

  /** One line of the list; Unshown stands for a positional list edit, or one that raises. */
  datatype Entry = Entry(kind: Kind, path: Path, value: Tree) | Unshown(path: Path)

  /** The value at a path, or Null when there is none. */
  function GetNested(data: Tree, path: Path): Tree {
    if path == [] then data
    else if data.Dict? && path[0] in data.entries then GetNested(data.entries[path[0]], path[1..])
    else Null
  }

  method GetNestedLoop(data: Tree, path: Path) returns (r: Tree)
    ensures r == GetNested(data, path)
  {
    var current := data;
    for i := 0 to |path|
      invariant GetNested(data, path) == GetNested(current, path[i..])
    {
      assert path[i..][1..] == path[i + 1..];
      if !current.Dict? || path[i] !in current.entries { return Null; }
      current := current.entries[path[i]];
    }
    return current;
  }

  // ---------- Collecting ----------

  function Below(key: string, entries: seq<Entry>): seq<Entry> {
    seq(|entries|, i requires 0 <= i < |entries| => Moved(key, entries[i]))
  }

  function Moved(key: string, e: Entry): Entry {
    e.(path := [key] + e.path)
  }

  function Deletes(names: seq<string>): seq<Entry> {
    seq(|names|, i requires 0 <= i < |names| => Entry(Delete, [names[i]], Null))
  }

  /** The text of a value that is no string, and the scalars that count as false: left open. */
  const TEXT: Tree -> string
  const FALSY: set<int>

  function TextOf(t: Tree): string {
    if t.Str? then t.text else TEXT(t)
  }

  predicate Truthy(t: Tree) {
    match t
    case Null => false
    case Scalar(id) => id !in FALSY
    case Str(s) => s != ""
    case List(items) => items != []
    case Dict(m) => m != map[]
  }

  /** The names listed by a deletion, in order. */
  function NamesIn(v: Tree): seq<string> {
    var items := if v.List? then v.items else [v];
    TextsOf(items)
  }

  function TextsOf(items: seq<Tree>): seq<string> {
    seq(|items|, i requires 0 <= i < |items| => TextOf(items[i]))
  }

  function KeysIn(t: Tree): set<string> {
    if t.Dict? then t.entries.Keys else {}
  }

  /** The entries for the keys of a replacement: an update where the old value has the key. */
  function Assignments(m: map<string, Tree>, old_: set<string>, keys: seq<string>): seq<Entry>
    requires forall i :: 0 <= i < |keys| ==> keys[i] in m
  {
    seq(|keys|, i requires 0 <= i < |keys| => Entry(if keys[i] in old_ then Update else Add, [keys[i]], m[keys[i]]))
  }

  /** A whole-value replacement: the keys that go, then the keys of the new dict, or the new value itself. */
  function Replaced(value: Tree, old_: Tree): seq<Entry> {
    var gone := KeySeq(KeysIn(old_) - KeysIn(value));
    Deletes(gone) +
      if value.Dict? then
        var keys := KeySeq(value.entries.Keys);
        assert forall i :: 0 <= i < |keys| ==> keys[i] in keys;
        Assignments(value.entries, KeysIn(old_), keys)
      else if Truthy(value) || KeysIn(old_) == {} then [Entry(if old_ != Null then Update else Add, [], value)]
      else []
  }

  /** The changes of an unmarshalled diff against the old value, with paths relative to it. */
  function Collected(o: Order, diff: Tree, old_: Tree): seq<Entry>
    decreases diff, 1, 0
  {
    if !diff.Dict? then [Entry(if old_ != Null then Update else Add, [], diff)]
    else if old_.List? then
      match Apply(o, old_, diff)
      case Some(v) => [Entry(Update, [], v)]
      case None => [Unshown([])]
    else
      CollectKeys(o, diff, old_, o.Visit(diff.entries.Keys))
  }

  function CollectKeys(o: Order, diff: Tree, old_: Tree, keys: seq<string>): seq<Entry>
    requires diff.Dict?
    decreases diff, 0, |keys|, 2
  {
    if keys == [] then []
    else
      var n := |keys| - 1;
      CollectKeys(o, diff, old_, keys[..n]) + CollectStep(o, diff, old_, keys[n])
  }

  /** What one key of the diff adds to the list. */
  function CollectStep(o: Order, diff: Tree, old_: Tree, key: string): seq<Entry>
    requires diff.Dict?
    decreases diff, 0, 0, 1
  {
    if key == DELETE && key in diff.entries then Deletes(NamesIn(diff.entries[DELETE]))
    else if key == REPLACE && key in diff.entries then Replaced(diff.entries[REPLACE], old_)
    else Below(key, CollectAt(o, diff, old_, key))
  }

  function CollectAt(o: Order, diff: Tree, old_: Tree, key: string): seq<Entry>
    requires diff.Dict?
    decreases diff, 0, 0, 0
  {
    if key !in diff.entries then []
    else
      var child := GetNested(old_, [key]);
      if child != Null then Collected(o.Under(key), diff.entries[key], child)
      else [Entry(Add, [], diff.entries[key])]
  }

  // ---------- Performing ----------

  function SetPath(t: Tree, path: Path, v: Tree): Tree
    decreases |path|
  {
    if path == [] then v
    else
      var m := if t.Dict? then t.entries else map[];
      var child := if path[0] in m then m[path[0]] else EMPTY_DICT;
      Dict(m[path[0] := SetPath(child, path[1..], v)])
  }

  function DeletePath(t: Tree, path: Path): Tree
    decreases |path|
  {
    if path == [] || !t.Dict? || path[0] !in t.entries then t
    else if |path| == 1 then Dict(t.entries - {path[0]})
    else Dict(t.entries[path[0] := DeletePath(t.entries[path[0]], path[1..])])
  }

  function Do(t: Tree, e: Entry): Tree {
    match e
    case Unshown(_) => t
    case Entry(kind, path, v) => if kind == Delete then DeletePath(t, path) else SetPath(t, path, v)
  }

  function Perform(t: Tree, entries: seq<Entry>): Tree {
    if entries == [] then t else Do(Perform(t, entries[..|entries| - 1]), entries[|entries| - 1])
  }

  lemma {:induction false} PerformAppend(t: Tree, a: seq<Entry>, b: seq<Entry>)
    ensures Perform(t, a + b) == Perform(Perform(t, a), b)
    decreases |b|
  {
    if b == [] {
      assert a + b == a;
    } else {
      assert (a + b)[..|a + b| - 1] == a + b[..|b| - 1];
      PerformAppend(t, a, b[..|b| - 1]);
    }
  }

  /** Entries that can be moved below a key: none is unshown, and deletions name something inside. */
  predicate Movable(entries: seq<Entry>) {
    forall i :: 0 <= i < |entries| ==>
      entries[i].Entry? && (entries[i].kind == Delete ==> entries[i].path != [])
  }

  /** Performing below a key of a dict is performing on the value at that key. */
  lemma {:induction false} PerformBelow(m: map<string, Tree>, key: string, entries: seq<Entry>)
    requires Movable(entries) && entries != []
    requires key in m || entries[0].kind != Delete
    ensures Perform(Dict(m), Below(key, entries))
         == Dict(m[key := Perform(if key in m then m[key] else EMPTY_DICT, entries)])
    decreases |entries|
  {
    var n := |entries| - 1;
    var e := entries[n];
    assert Below(key, entries)[..n] == Below(key, entries[..n]);
    assert ([key] + e.path)[1..] == e.path;
    if n == 0 {
      assert Below(key, entries[..0]) == [] && entries[..0] == [];
    } else {
      PerformBelow(m, key, entries[..n]);
    }
    hide SetPath, DeletePath;
    DoBelow(if n == 0 then m else m[key := Perform(if key in m then m[key] else EMPTY_DICT, entries[..n])], key, e);
  }

  lemma DoBelow(m: map<string, Tree>, key: string, e: Entry)
    requires e.Entry? && (e.kind == Delete ==> e.path != [] && key in m)
    ensures Do(Dict(m), Moved(key, e)) == Dict(m[key := Do(if key in m then m[key] else EMPTY_DICT, e)])
  {
    assert ([key] + e.path)[1..] == e.path;
  }

  // ---------- The list is faithful ----------

  /** The entries at a key turn what the base holds there into the value of cur. */
  predicate KeyLeads(o: Order, diff: Tree, old_: Tree, base: map<string, Tree>, cur: map<string, Tree>, k: string)
    requires diff.Dict?
  {
    var es := CollectAt(o, diff, old_, k);
    && k != DELETE && k != REPLACE && k in cur && Movable(es) && es != []
    && (k !in base ==> es[0].kind != Delete)
    && Perform(if k in base then base[k] else EMPTY_DICT, es) == cur[k]
  }

  predicate Distinct(keys: seq<string>) {
    forall i, j :: 0 <= i < j < |keys| ==> keys[i] != keys[j]
  }

  /** The entries of cur at the given keys, written over base. */
  function Overwritten(base: map<string, Tree>, cur: map<string, Tree>, keys: seq<string>): map<string, Tree>
    decreases |keys|
  {
    if keys == [] then base
    else
      var n := |keys| - 1;
      var m := Overwritten(base, cur, keys[..n]);
      if keys[n] in cur then m[keys[n] := cur[keys[n]]] else m
  }

  lemma {:induction false} OverwrittenAt(base: map<string, Tree>, cur: map<string, Tree>, keys: seq<string>, x: string)
    ensures var m := Overwritten(base, cur, keys);
      && (x in m <==> x in base || (x in keys && x in cur))
      && (x in m ==> m[x] == if x in keys && x in cur then cur[x] else base[x])
    decreases |keys|
  {
    if keys != [] {
      var n := |keys| - 1;
      OverwrittenAt(base, cur, keys[..n], x);
      assert x in keys <==> x in keys[..n] || x == keys[n];
    }
  }

  lemma {:induction false} KeysLead(o: Order, diff: Tree, old_: Tree, base: map<string, Tree>, cur: map<string, Tree>, keys: seq<string>)
    requires diff.Dict? && Distinct(keys)
    requires forall i :: 0 <= i < |keys| ==> KeyLeads(o, diff, old_, base, cur, keys[i])
    ensures Perform(Dict(base), CollectKeys(o, diff, old_, keys)) == Dict(Overwritten(base, cur, keys))
    ensures Movable(CollectKeys(o, diff, old_, keys))
    ensures keys != [] ==> CollectKeys(o, diff, old_, keys) != []
    decreases |keys|
  {
    if keys != [] {
      var n := |keys| - 1;
      var k := keys[n];
      KeysLead(o, diff, old_, base, cur, keys[..n]);
      hide Perform, CollectAt, Movable, KeyLeads;
      KeyLeadsOn(o, diff, old_, base, cur, keys, CollectKeys(o, diff, old_, keys[..n]));
    }
  }

  lemma KeyLeadsOn(o: Order, diff: Tree, old_: Tree, base: map<string, Tree>, cur: map<string, Tree>, keys: seq<string>, done: seq<Entry>)
    requires diff.Dict? && Distinct(keys) && keys != [] && KeyLeads(o, diff, old_, base, cur, keys[|keys| - 1])
    requires Perform(Dict(base), done) == Dict(Overwritten(base, cur, keys[..|keys| - 1])) && Movable(done)
    ensures var es := done + Below(keys[|keys| - 1], CollectAt(o, diff, old_, keys[|keys| - 1]));
      Perform(Dict(base), es) == Dict(Overwritten(base, cur, keys)) && Movable(es) && es != []
  {
    hide CollectAt, Perform, Overwritten;
    var n := |keys| - 1;
    var k := keys[n];
    var es := CollectAt(o, diff, old_, k);
    OverwrittenStep(base, cur, keys);
    PerformAppend(Dict(base), done, Below(k, es));
    PerformBelow(Overwritten(base, cur, keys[..n]), k, es);
    MovedMovable(k, es);
    MovableAppend(done, Below(k, es));
  }

  lemma OverwrittenStep(base: map<string, Tree>, cur: map<string, Tree>, keys: seq<string>)
    requires Distinct(keys) && keys != [] && keys[|keys| - 1] in cur
    ensures var n := |keys| - 1; var k := keys[n]; var m := Overwritten(base, cur, keys[..n]);
      && (k in m <==> k in base) && (k in base ==> m[k] == base[k])
      && m[k := cur[k]] == Overwritten(base, cur, keys)
  {
    var n := |keys| - 1;
    OverwrittenAt(base, cur, keys[..n], keys[n]);
  }

  lemma MovedMovable(k: string, es: seq<Entry>)
    requires Movable(es)
    ensures Movable(Below(k, es))
  {
  }

  function SetOf(names: seq<string>): set<string> {
    set n | n in names
  }

  lemma {:induction false} PerformDeletes(m: map<string, Tree>, names: seq<string>)
    ensures Perform(Dict(m), Deletes(names)) == Dict(m - SetOf(names))
    ensures Movable(Deletes(names))
    decreases |names|
  {
    if names != [] {
      PerformDeletes(m, names[..|names| - 1]);
      hide Perform, Movable;
      DeletesLast(names);
      var init := SetOf(names[..|names| - 1]);
      DeleteOne(m - init, names[|names| - 1]);
      assert m - init - {names[|names| - 1]} == m - SetOf(names);
      PerformLast(Dict(m), Deletes(names));
    } else {
      assert m - SetOf(names) == m;
    }
  }

  lemma DeletesLast(names: seq<string>)
    requires names != []
    ensures var n := |names| - 1;
      && Deletes(names)[..n] == Deletes(names[..n]) && Deletes(names)[n] == Entry(Delete, [names[n]], Null)
      && SetOf(names) == SetOf(names[..n]) + {names[n]}
      && Movable(Deletes(names))
  {
    var n := |names| - 1;
    assert names == names[..n] + [names[n]];
  }

  lemma PerformLast(t: Tree, es: seq<Entry>)
    requires es != []
    ensures Perform(t, es) == Do(Perform(t, es[..|es| - 1]), es[|es| - 1])
  {
  }

  lemma DeleteOne(m: map<string, Tree>, name: string)
    ensures Do(Dict(m), Entry(Delete, [name], Null)) == Dict(m - {name})
  {
    assert name !in m ==> m - {name} == m;
  }

  lemma TextsOfItems(items: seq<Tree>, x: string)
    requires forall t :: t in items ==> t.Str?
    ensures x in TextsOf(items) <==> Str(x) in items
  {
    if x in TextsOf(items) {
      var i :| 0 <= i < |items| && TextsOf(items)[i] == x;
      assert items[i] in items;
    }
    if Str(x) in items {
      var i :| 0 <= i < |items| && items[i] == Str(x);
      assert TextsOf(items)[i] == x;
    }
  }

  /** The change that the list makes of a diff between safe values. */
  lemma {:induction false} ListLeads(o: Order, prev: Tree, cur: Tree)
    requires Diff(prev, cur).Some? && Plain(cur) && NoEmptying(prev, cur) && NoListTrap(prev, cur)
    ensures var es := Collected(o, Unmarshal(Diff(prev, cur).value), prev);
      Movable(es) && es != [] && Perform(prev, es) == cur
    decreases cur
  {
    if prev.Dict? && cur.Dict? {
      var u := Unmarshal(Diff(prev, cur).value);
      UnmarshalledDiff(prev, cur, REPLACE);
      forall k | k in u.entries && k != DELETE
        ensures KeyLeads(o, u, prev, prev.entries, cur.entries, k)
      {
        UnmarshalledDiff(prev, cur, k);
        assert Changed(prev, cur, k);
        if k in prev.entries {
          ListLeads(o.Under(k), prev.entries[k], cur.entries[k]);
        }
        ChangedKeyLeads(o, prev, cur, u, k);
      }
      hide Diff, Unmarshal, Collected, Perform, KeyLeads, Plain, NoEmptying, NoListTrap;
      DictsLead(o, prev, cur);
    } else {
      PlainIsVerbatim(cur);
      if cur.Dict? && prev.List? {
        FaithfulReplacement(o, prev, cur);
        PerformSet(prev, Update, cur);
      } else if cur.Dict? {
        AssignLeads(o, prev, cur);
      }
    }
  }

  lemma ChangedKeyLeads(o: Order, prev: Tree, cur: Tree, u: Tree, k: string)
    requires prev.Dict? && cur.Dict? && u.Dict? && Changed(prev, cur, k) && Plain(cur)
    requires k in u.entries && u.entries[k] == Unmarshal(SubDiff(prev, cur, k)) && k != REPLACE && k != DELETE
    requires k in prev.entries ==>
      var es := Collected(o.Under(k), u.entries[k], prev.entries[k]);
      Movable(es) && es != [] && Perform(prev.entries[k], es) == cur.entries[k]
    ensures KeyLeads(o, u, prev, prev.entries, cur.entries, k)
  {
    hide Collected, Perform, Movable;
    NestedOne(prev, k);
    if !(k in prev.entries && prev.entries[k] != Null) {
      AssignedSubDiff(prev, cur, k);
      var v := cur.entries[k];
      assert CollectAt(o, u, prev, k) == [Entry(Add, [], v)];
      OneAddition(v);
      PerformSet(if k in prev.entries then prev.entries[k] else EMPTY_DICT, Add, v);
    }
  }

  lemma OneAddition(v: Tree)
    ensures Movable([Entry(Add, [], v)])
  {
  }

  /** A new value, or one in place of None, is recorded as it is. */
  lemma AssignedSubDiff(prev: Tree, cur: Tree, k: string)
    requires prev.Dict? && cur.Dict? && Changed(prev, cur, k) && Plain(cur)
    requires k in prev.entries ==> prev.entries[k] == Null
    ensures Unmarshal(SubDiff(prev, cur, k)) == cur.entries[k]
  {
    assert SubDiff(prev, cur, k) == cur.entries[k];
    hide Diff;
    PlainIsVerbatim(cur.entries[k]);
  }

  lemma NestedOne(t: Tree, k: string)
    ensures GetNested(t, [k]) == if t.Dict? && k in t.entries then t.entries[k] else Null
  {
    assert [k][1..] == [];
  }

  lemma PerformSet(t: Tree, kind: Kind, v: Tree)
    requires kind != Delete
    ensures Perform(t, [Entry(kind, [], v)]) == v
  {
    assert [Entry(kind, [], v)][..0] == [];
  }

  lemma DictsLead(o: Order, prev: Tree, cur: Tree)
    requires prev.Dict? && cur.Dict? && Diff(prev, cur).Some? && !Changed(prev, cur, DELETE)
    requires var u := Unmarshal(Diff(prev, cur).value);
      u.Dict? && forall k :: k in u.entries && k != DELETE ==> KeyLeads(o, u, prev, prev.entries, cur.entries, k)
    ensures var es := Collected(o, Unmarshal(Diff(prev, cur).value), prev);
      Movable(es) && es != [] && Perform(prev, es) == cur
  {
    hide Diff, Unmarshal, Perform, KeyLeads, Movable, Gone, CollectKeys, Overwritten;
    var u := Unmarshal(Diff(prev, cur).value);
    UnmarshalledNonempty(prev, cur);
    var keys := o.Visit(u.entries.Keys);
    AllLead(o, u, prev, cur, keys);
    DiffNoneIffEqual(prev, cur);
    if CollectKeys(o, u, prev, keys) == [] {
      PerformNothing(prev);
    }
  }

  /** All keys in any order, with the deletion wherever it comes. */
  lemma AllLead(o: Order, u: Tree, prev: Tree, cur: Tree, keys: seq<string>)
    requires prev.Dict? && cur.Dict? && Diff(prev, cur).Some? && !Changed(prev, cur, DELETE)
    requires u == Unmarshal(Diff(prev, cur).value) && u.Dict? && IsListing(keys, u.entries.Keys)
    requires forall k :: k in u.entries && k != DELETE ==> KeyLeads(o, u, prev, prev.entries, cur.entries, k)
    ensures var es := CollectKeys(o, u, prev, keys); Movable(es) && Perform(prev, es) == cur
  {
    hide Diff, Unmarshal, Perform, KeyLeads, Movable, CollectKeys, Overwritten;
    UnmarshalledDeletion(prev, cur);
    assert forall i :: 0 <= i < |keys| ==> keys[i] in keys;
    if DELETE in u.entries {
      var i :| 0 <= i < |keys| && keys[i] == DELETE;
      DeletionsAreNames(prev, cur);
      AroundDeletion(o, u, prev, cur.entries, Gone(prev, cur), keys, i);
      assert keys == keys[..i] + [DELETE] + keys[i + 1..];
      OverwrittenIsCur(prev, cur, keys[..i], keys[i + 1..]);
    } else {
      KeysLead(o, u, prev, prev.entries, cur.entries, keys);
      assert Gone(prev, cur) == {};
      OverwrittenIsCur(prev, cur, keys, []);
      OverwrittenByNone(Overwritten(prev.entries, cur.entries, keys), cur.entries);
    }
  }

  lemma OverwrittenByNone(m: map<string, Tree>, cur: map<string, Tree>)
    ensures Overwritten(m - {}, cur, []) == m
  {
    assert m - {} == m;
  }

  lemma AroundDeletion(o: Order, u: Tree, prev: Tree, cur: map<string, Tree>, gone: set<string>, keys: seq<string>, i: nat)
    requires u.Dict? && prev.Dict? && i < |keys| && keys[i] == DELETE && Distinct(keys) && DELETE in u.entries
    requires forall j :: 0 <= j < |keys| && j != i ==> KeyLeads(o, u, prev, prev.entries, cur, keys[j])
    requires forall k :: k in cur ==> k !in gone
    requires Deletions(u.entries) == Some(gone)
    requires u.entries[DELETE].List? && forall t :: t in u.entries[DELETE].items ==> t.Str?
    ensures var es := CollectKeys(o, u, prev, keys);
      Movable(es) && Perform(prev, es) == Dict(Overwritten(Overwritten(prev.entries, cur, keys[..i]) - gone, cur, keys[i + 1..]))
  {
    hide Perform, KeyLeads, Movable, CollectKeys, Overwritten, Deletes, NamesIn;
    var a, b := keys[..i], keys[i + 1..];
    var m := Overwritten(prev.entries, cur, a);
    var deletes := Deletes(NamesIn(u.entries[DELETE]));
    KeysLead(o, u, prev, prev.entries, cur, a);
    DeletesLead(u, m, gone);
    forall j | 0 <= j < |b| ensures KeyLeads(o, u, prev, m - gone, cur, b[j]) {
      LeadsLater(o, u, prev, cur, gone, keys, i, i + 1 + j);
    }
    KeysLead(o, u, prev, m - gone, cur, b);
    CollectAround(o, u, prev, keys, i);
    PerformAppend(prev, CollectKeys(o, u, prev, a) + deletes, CollectKeys(o, u, prev, b));
    PerformAppend(prev, CollectKeys(o, u, prev, a), deletes);
    MovableAppend(CollectKeys(o, u, prev, a), deletes);
    MovableAppend(CollectKeys(o, u, prev, a) + deletes, CollectKeys(o, u, prev, b));
  }

  /** A key visited behind the deletion still finds the old value. */
  lemma LeadsLater(o: Order, u: Tree, prev: Tree, cur: map<string, Tree>, gone: set<string>, keys: seq<string>, i: nat, j: nat)
    requires u.Dict? && prev.Dict? && i < j < |keys| && Distinct(keys) && forall k :: k in cur ==> k !in gone
    requires KeyLeads(o, u, prev, prev.entries, cur, keys[j])
    ensures KeyLeads(o, u, prev, Overwritten(prev.entries, cur, keys[..i]) - gone, cur, keys[j])
  {
    hide CollectAt, Perform, Movable;
    OverwrittenAt(prev.entries, cur, keys[..i], keys[j]);
    assert keys[j] !in keys[..i];
  }

  lemma CollectAround(o: Order, diff: Tree, old_: Tree, keys: seq<string>, i: nat)
    requires diff.Dict? && i < |keys| && keys[i] == DELETE && DELETE in diff.entries
    ensures CollectKeys(o, diff, old_, keys)
         == CollectKeys(o, diff, old_, keys[..i]) + Deletes(NamesIn(diff.entries[DELETE])) + CollectKeys(o, diff, old_, keys[i + 1..])
  {
    hide CollectAt, Deletes, NamesIn;
    assert keys == keys[..i + 1] + keys[i + 1..];
    assert keys[..i + 1][..i] == keys[..i];
    CollectAppend(o, diff, old_, keys[..i + 1], keys[i + 1..]);
  }

  lemma {:induction false} CollectAppend(o: Order, diff: Tree, old_: Tree, a: seq<string>, b: seq<string>)
    requires diff.Dict?
    ensures CollectKeys(o, diff, old_, a + b) == CollectKeys(o, diff, old_, a) + CollectKeys(o, diff, old_, b)
    decreases |b|
  {
    hide CollectKeys, CollectStep;
    if b == [] {
      assert a + b == a;
      CollectNothing(o, diff, old_);
    } else {
      var n := |b| - 1;
      CollectAppend(o, diff, old_, a, b[..n]);
      CollectLast(o, diff, old_, b[..n], b[n]);
      CollectLast(o, diff, old_, a + b[..n], b[n]);
      assert b[..n] + [b[n]] == b && a + b[..n] + [b[n]] == a + b;
    }
  }

  lemma CollectLast(o: Order, diff: Tree, old_: Tree, keys: seq<string>, k: string)
    requires diff.Dict?
    ensures CollectKeys(o, diff, old_, keys + [k]) == CollectKeys(o, diff, old_, keys) + CollectStep(o, diff, old_, k)
  {
    hide CollectStep;
    assert (keys + [k])[..|keys|] == keys;
  }

  lemma CollectNothing(o: Order, diff: Tree, old_: Tree)
    requires diff.Dict?
    ensures CollectKeys(o, diff, old_, []) == []
  {
  }

  lemma PerformNothing(t: Tree)
    ensures Perform(t, []) == t
  {
  }

  lemma MovableAppend(a: seq<Entry>, b: seq<Entry>)
    requires Movable(a) && Movable(b)
    ensures Movable(a + b)
  {
  }

  lemma DeletesLead(u: Tree, m: map<string, Tree>, gone: set<string>)
    requires u.Dict? && DELETE in u.entries && Deletions(u.entries) == Some(gone)
    requires u.entries[DELETE].List? && forall t :: t in u.entries[DELETE].items ==> t.Str?
    ensures var deletes := Deletes(NamesIn(u.entries[DELETE]));
      Movable(deletes) && Perform(Dict(m), deletes) == Dict(m - gone)
  {
    var items := u.entries[DELETE].items;
    forall x ensures x in TextsOf(items) <==> x in gone {
      TextsOfItems(items, x);
      assert Str(x) in items ==> x in gone;
    }
    assert gone == SetOf(TextsOf(items));
    hide Perform;
    PerformDeletes(m, TextsOf(items));
  }

  lemma OverwrittenIsCur(prev: Tree, cur: Tree, a: seq<string>, b: seq<string>)
    requires prev.Dict? && cur.Dict? && Diff(prev, cur).Some? && !Changed(prev, cur, DELETE)
    requires forall k :: k in a || k in b <==> k in Unmarshal(Diff(prev, cur).value).entries && k != DELETE
    ensures Overwritten(Overwritten(prev.entries, cur.entries, a) - Gone(prev, cur), cur.entries, b) == cur.entries
  {
    hide Unmarshal, Diff, Overwritten;
    var done := Overwritten(prev.entries, cur.entries, a) - Gone(prev, cur);
    var m := Overwritten(done, cur.entries, b);
    forall k ensures k in m <==> k in cur.entries
             ensures k in m && k in cur.entries ==> m[k] == cur.entries[k]
    {
      OverwrittenAt(prev.entries, cur.entries, a, k);
      OverwrittenAt(done, cur.entries, b, k);
      UnmarshalledDiff(prev, cur, k);
      if k in cur.entries && k in prev.entries {
        DiffNoneIffEqual(prev.entries[k], cur.entries[k]);
      }
    }
  }

  /** A dict assigned over a value that is no dict is listed as the addition of its keys. */
  lemma AssignLeads(o: Order, old_: Tree, v: Tree)
    requires v.Dict? && v != EMPTY_DICT && Plain(v) && !old_.Dict? && !old_.List?
    ensures var es := Collected(o, v, old_); Movable(es) && es != [] && Perform(old_, es) == v
  {
    hide Perform, Plain, CollectKeys, Movable, Collected;
    var keys := o.Visit(v.entries.Keys);
    CollectedDict(o, v, old_);
    KeysOfPlain(v, keys);
    AllAdded(o, old_, v, keys);
    StartsAnywhere(o, old_, v, keys);
  }

  lemma CollectedDict(o: Order, diff: Tree, old_: Tree)
    requires diff.Dict? && !old_.List?
    ensures Collected(o, diff, old_) == CollectKeys(o, diff, old_, o.Visit(diff.entries.Keys))
  {
  }

  lemma KeysOfPlain(v: Tree, keys: seq<string>)
    requires v.Dict? && Plain(v) && v != EMPTY_DICT && IsListing(keys, v.entries.Keys)
    ensures keys != [] && forall i :: 0 <= i < |keys| ==> keys[i] in v.entries && !IsCommand(keys[i])
  {
    PlainHasNoCommands(v);
    hide Plain;
    forall i | 0 <= i < |keys| ensures keys[i] in v.entries && !IsCommand(keys[i]) {
      assert keys[i] in keys;
    }
    var k :| k in v.entries;
    assert k in keys;
  }

  lemma AllAdded(o: Order, old_: Tree, v: Tree, keys: seq<string>)
    requires v.Dict? && !old_.Dict? && Distinct(keys) && keys != []
    requires forall i :: 0 <= i < |keys| ==> keys[i] in v.entries && !IsCommand(keys[i])
    requires forall k :: k in keys <==> k in v.entries
    ensures var es := CollectKeys(o, v, old_, keys);
      Movable(es) && es != [] && Perform(EMPTY_DICT, es) == v
  {
    hide Perform, CollectKeys, Movable, KeyLeads, Overwritten;
    forall i | 0 <= i < |keys| ensures KeyLeads(o, v, old_, map[], v.entries, keys[i]) {
      AddedKeyLeads(o, old_, v, keys[i]);
    }
    KeysLead(o, v, old_, map[], v.entries, keys);
    OverwrittenAll(v.entries, keys);
  }

  lemma AddedKeyLeads(o: Order, old_: Tree, v: Tree, k: string)
    requires v.Dict? && !old_.Dict? && k in v.entries && !IsCommand(k)
    ensures KeyLeads(o, v, old_, map[], v.entries, k)
  {
    NestedOne(old_, k);
    PerformSet(EMPTY_DICT, Add, v.entries[k]);
  }

  lemma OverwrittenAll(cur: map<string, Tree>, keys: seq<string>)
    requires forall k :: k in keys <==> k in cur
    ensures Overwritten(map[], cur, keys) == cur
  {
    var m := Overwritten(map[], cur, keys);
    forall k ensures k in m <==> k in cur
             ensures k in m && k in cur ==> m[k] == cur[k]
    {
      OverwrittenAt(map[], cur, keys, k);
    }
  }

  lemma PlainHasNoCommands(v: Tree)
    requires v.Dict? && Plain(v)
    ensures forall k :: k in v.entries ==> !IsCommand(k)
  {
  }

  /** The first addition replaces a value that is no dict. */
  lemma {:induction false} StartsAnywhere(o: Order, old_: Tree, v: Tree, keys: seq<string>)
    requires v.Dict? && !old_.Dict? && keys != [] && forall i :: 0 <= i < |keys| ==> keys[i] in v.entries && !IsCommand(keys[i])
    ensures Perform(old_, CollectKeys(o, v, old_, keys)) == Perform(EMPTY_DICT, CollectKeys(o, v, old_, keys))
    decreases |keys|
  {
    var n := |keys| - 1;
    var k := keys[n];
    var e := Entry(Add, [], v.entries[k]);
    assert CollectAt(o, v, old_, k) == [e];
    var last := Below(k, [e]);
    assert last == [Moved(k, e)] && last[..0] == [];
    var init := CollectKeys(o, v, old_, keys[..n]);
    PerformAppend(old_, init, last);
    PerformAppend(EMPTY_DICT, init, last);
    if n > 0 {
      StartsAnywhere(o, old_, v, keys[..n]);
    } else {
      assert init == [];
      assert Do(old_, Moved(k, e)) == Do(EMPTY_DICT, Moved(k, e));
    }
  }

  /**
   * The flattened change list is faithful: for a safe pair, performing its entries in order on
   * the previous state produces the current one, as replaying the diff does.
   */
  lemma ChangeListIsFaithful(o: Order, prev: Tree, cur: Tree)
    requires Plain(cur) && NoEmptying(prev, cur) && NoListTrap(prev, cur) && Diff(prev, cur).Some?
    ensures var d := Diff(prev, cur).value;
      Perform(prev, Collected(o, Unmarshal(d), prev)) == cur && ApplyDiffIn(o, prev, d) == Some(cur)
  {
    ListLeads(o, prev, cur);
    SafeRoundTrip(o, prev, cur);
  }

  // ---------- Collecting into a shared list ----------

  function Prefixed(path: Path, entries: seq<Entry>): seq<Entry> {
    seq(|entries|, i requires 0 <= i < |entries| => entries[i].(path := path + entries[i].path))
  }

  lemma PrefixedAppend(path: Path, a: seq<Entry>, b: seq<Entry>)
    ensures Prefixed(path, a + b) == Prefixed(path, a) + Prefixed(path, b)
  {
  }

  lemma PrefixedBelow(path: Path, k: string, es: seq<Entry>)
    ensures Prefixed(path, Below(k, es)) == Prefixed(path + [k], es)
  {
    forall i | 0 <= i < |es| ensures path + ([k] + es[i].path) == path + [k] + es[i].path {
    }
  }

  lemma {:induction false} NestedFurther(t: Tree, path: Path, k: string)
    ensures GetNested(t, path + [k]) == GetNested(GetNested(t, path), [k])
    decreases |path|
  {
    if path == [] {
      assert path + [k] == [k];
    } else {
      assert (path + [k])[1..] == path[1..] + [k];
      if t.Dict? && path[0] in t.entries {
        NestedFurther(t.entries[path[0]], path[1..], k);
      } else {
        NestedOne(Null, k);
      }
    }
  }

  lemma CollectNext(o: Order, diff: Tree, old_: Tree, keys: seq<string>, i: nat, path: Path)
    requires diff.Dict? && i < |keys|
    ensures Prefixed(path, CollectKeys(o, diff, old_, keys[..i + 1]))
         == Prefixed(path, CollectKeys(o, diff, old_, keys[..i])) + Prefixed(path, CollectStep(o, diff, old_, keys[i]))
  {
    hide CollectStep, Prefixed;
    assert keys[..i + 1][..i] == keys[..i];
    PrefixedAppend(path, CollectKeys(o, diff, old_, keys[..i]), CollectStep(o, diff, old_, keys[i]));
  }

  /** The list that the recursive walk over a diff appends to. */
  class Changes {
    var entries: seq<Entry>

    constructor ()
      ensures entries == []
    {
      entries := [];
    }

    /** Appends one deletion for each name. */
    method DeleteAll(names: seq<string>, path: Path)
      modifies this
      ensures entries == old(entries) + Prefixed(path, Deletes(names))
    {
      ghost var before := entries;
      for i := 0 to |names|
        invariant entries == before + Prefixed(path, Deletes(names[..i]))
      {
        assert names[..i + 1] == names[..i] + [names[i]];
        DeletesNext(path, names[..i], names[i]);
        entries := entries + [Entry(Delete, path + [names[i]], Null)];
      }
      assert names[..|names|] == names;
    }

    /** Appends the deletions named by a "$delete" entry. */
    method CollectDeletions(names: Tree, path: Path)
      modifies this
      ensures entries == old(entries) + Prefixed(path, Deletes(NamesIn(names)))
    {
      if names.List? {
        DeleteAll(TextsOf(names.items), path);
      } else {
        assert TextsOf([names]) == [TextOf(names)];
        DeleteAll([TextOf(names)], path);
      }
    }

    /** Appends the changes of a "$replace" entry over the old value. */
    method CollectReplacement(value: Tree, path: Path, old_: Tree)
      modifies this
      ensures entries == old(entries) + Prefixed(path, Replaced(value, old_))
    {
      hide KeySeq, Deletes, Assignments, Prefixed, Truthy, KeysIn;
      ghost var before := entries;
      var gone := KeySeq(KeysIn(old_) - KeysIn(value));
      DeleteAll(gone, path);
      PrefixedOne(path);
      if value.Dict? {
        var keys := KeySeq(value.entries.Keys);
        assert forall i :: 0 <= i < |keys| ==> keys[i] in keys;
        AssignAll(value.entries, KeysIn(old_), keys, path);
        PrefixedAppend(path, Deletes(gone), Assignments(value.entries, KeysIn(old_), keys));
      } else if Truthy(value) || KeysIn(old_) == {} {
        PrefixedAppend(path, Deletes(gone), [Entry(if old_ != Null then Update else Add, [], value)]);
        entries := entries + [Entry(if old_ != Null then Update else Add, path, value)];
      } else {
        assert Deletes(gone) + [] == Deletes(gone);
      }
    }

    /** Appends one assignment for each key of a new dict. */
    method AssignAll(m: map<string, Tree>, old_: set<string>, keys: seq<string>, path: Path)
      requires forall i :: 0 <= i < |keys| ==> keys[i] in m
      modifies this
      ensures entries == old(entries) + Prefixed(path, Assignments(m, old_, keys))
    {
      ghost var before := entries;
      for i := 0 to |keys|
        invariant entries == before + Prefixed(path, Assignments(m, old_, keys[..i]))
      {
        AssignmentsNext(path, m, old_, keys, i);
        entries := entries + [Entry(if keys[i] in old_ then Update else Add, path + [keys[i]], m[keys[i]])];
      }
      assert keys[..|keys|] == keys;
    }

    /** Appends the changes of an unmarshalled diff at a path. */
    method Collect(o: Order, diff: Tree, path: Path, previous: Tree)
      modifies this
      ensures entries == old(entries) + Prefixed(path, Collected(o, diff, GetNested(previous, path)))
      decreases diff, 2
    {
      var old_ := GetNestedLoop(previous, path);
      PrefixedOne(path);
      if !diff.Dict? {
        entries := entries + [Entry(if old_ != Null then Update else Add, path, diff)];
      } else if old_.List? {
        var r := Apply(o, old_, diff);
        entries := entries + [if r.Some? then Entry(Update, path, r.value) else Unshown(path)];
      } else {
        CollectDict(o, diff, path, previous);
      }
    }

    /** The changes of a diff over a value that is no list, key by key in their order. */
    method CollectDict(o: Order, diff: Tree, path: Path, previous: Tree)
      requires diff.Dict? && !GetNested(previous, path).List?
      modifies this
      ensures entries == old(entries) + Prefixed(path, Collected(o, diff, GetNested(previous, path)))
      decreases diff, 1
    {
      var keys := o.Visit(diff.entries.Keys);
      assert forall i :: 0 <= i < |keys| ==> keys[i] in keys;
      CollectAll(o, diff, keys, path, previous);
    }

    /** The loop over the keys of a diff. */
    method CollectAll(o: Order, diff: Tree, keys: seq<string>, path: Path, previous: Tree)
      requires diff.Dict? && forall i :: 0 <= i < |keys| ==> keys[i] in diff.entries
      modifies this
      ensures entries == old(entries) + Prefixed(path, CollectKeys(o, diff, GetNested(previous, path), keys))
      decreases diff, 0, 1
    {
      ghost var before := entries;
      ghost var old_ := GetNested(previous, path);
      hide Collected, CollectStep, GetNested;
      for i := 0 to |keys|
        invariant entries == before + Prefixed(path, CollectKeys(o, diff, old_, keys[..i]))
      {
        CollectKey(o, diff, keys[i], path, previous);
        CollectNext(o, diff, old_, keys, i, path);
      }
      assert keys[..|keys|] == keys;
    }

    /** One key of a diff: the deletions, a replacement, a step into an existing value, or an addition. */
    method CollectKey(o: Order, diff: Tree, k: string, path: Path, previous: Tree)
      requires diff.Dict? && k in diff.entries
      modifies this
      ensures entries == old(entries) + Prefixed(path, CollectStep(o, diff, GetNested(previous, path), k))
      decreases diff, 0, 0
    {
      hide Replaced, Collected;
      NestedFurther(previous, path, k);
      PrefixedOne(path + [k]);
      if k == DELETE {
        CollectDeletions(diff.entries[DELETE], path);
      } else if k == REPLACE {
        var old_ := GetNestedLoop(previous, path);
        CollectReplacement(diff.entries[REPLACE], path, old_);
      } else {
        PrefixedBelow(path, k, CollectAt(o, diff, GetNested(previous, path), k));
        var child := GetNestedLoop(previous, path + [k]);
        if child != Null {
          Collect(o.Under(k), diff.entries[k], path + [k], previous);
        } else {
          entries := entries + [Entry(Add, path + [k], diff.entries[k])];
        }
      }
    }
  }

  lemma AssignmentsNext(path: Path, m: map<string, Tree>, old_: set<string>, keys: seq<string>, i: nat)
    requires i < |keys| && forall j :: 0 <= j < |keys| ==> keys[j] in m
    ensures Prefixed(path, Assignments(m, old_, keys[..i + 1])) == Prefixed(path, Assignments(m, old_, keys[..i]))
         + [Entry(if keys[i] in old_ then Update else Add, path + [keys[i]], m[keys[i]])]
  {
    assert Assignments(m, old_, keys[..i + 1])
        == Assignments(m, old_, keys[..i]) + [Entry(if keys[i] in old_ then Update else Add, [keys[i]], m[keys[i]])];
  }

  lemma PrefixedOne(path: Path)
    ensures forall e: Entry :: e.path == [] ==> Prefixed(path, [e]) == [e.(path := path)]
  {
    assert path + [] == path;
  }

  lemma PrefixedNothing(entries: seq<Entry>)
    ensures Prefixed([], entries) == entries
  {
    forall i | 0 <= i < |entries| ensures [] + entries[i].path == entries[i].path {
    }
  }

  lemma DeletesNext(path: Path, done: seq<string>, name: string)
    ensures Prefixed(path, Deletes(done + [name])) == Prefixed(path, Deletes(done)) + [Entry(Delete, path + [name], Null)]
  {
    assert Deletes(done + [name]) == Deletes(done) + [Entry(Delete, [name], Null)];
  }

  /** Collecting a safe pair's diff and performing the collected entries gives the current state. */
  method ChangeList(o: Order, prev: Tree, cur: Tree) returns (entries: seq<Entry>)
    requires Plain(cur) && NoEmptying(prev, cur) && NoListTrap(prev, cur) && Diff(prev, cur).Some?
    ensures Perform(prev, entries) == cur
  {
    var changes := new Changes();
    changes.Collect(o, Unmarshal(Diff(prev, cur).value), [], prev);
    ChangeListIsFaithful(o, prev, cur);
    ghost var es := Collected(o, Unmarshal(Diff(prev, cur).value), prev);
    PrefixedNothing(es);
    assert [] + es == es;
    return changes.entries;
  }
}
