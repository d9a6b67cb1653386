/** Document states: the JSON-like trees that transactions change and the log stores. */
module Trees {

  datatype Option<+T> = None | Some(value: T)

  /** Numbers and booleans are opaque scalars; the store compares and copies them, nothing more. */
  datatype Tree =
    | Null
    | Scalar(id: int)
    | Str(text: string)
    | List(items: seq<Tree>)
    | Dict(entries: map<string, Tree>)

  type Path = seq<string>

  const EMPTY_DICT := Dict(map[])

  const DELETE := "$delete"
  const REPLACE := "$replace"
  const INSERT := "$insert"

  predicate IsCommand(key: string) {
    key == DELETE || key == REPLACE || key == INSERT
  }

  predicate StartsDollar(s: string) {
    |s| >= 1 && s[0] == '$'
  }

  predicate StartsDollars(s: string) {
    |s| >= 2 && s[0] == '$' && s[1] == '$'
  }

  function EscapeKey(key: string): (r: string)
    ensures Unescape(r) == key
    ensures r != DELETE && r != REPLACE && r != INSERT
  {
    if StartsDollar(key) then "$" + key else key
  }

  function Unescape(s: string): string {
    if StartsDollars(s) then s[1..] else s
  }

  /** Lexicographic order by character code, used to list the keys of a dict in one fixed order. */
  predicate Before(a: string, b: string) {
    a == [] || (b != [] && (a[0] < b[0] || (a[0] == b[0] && Before(a[1..], b[1..]))))
  }

  lemma BeforeTotal(a: string, b: string)
    ensures Before(a, b) || Before(b, a)
  {}

  lemma BeforeAntisymmetric(a: string, b: string)
    requires Before(a, b) && Before(b, a)
    ensures a == b
  {
    if a != [] {
      BeforeAntisymmetric(a[1..], b[1..]);
      assert a == [a[0]] + a[1..] && b == [b[0]] + b[1..];
    }
  }

  lemma BeforeTransitive(a: string, b: string, c: string)
    requires Before(a, b) && Before(b, c)
    ensures Before(a, c)
  {}

  lemma FirstExists(keys: set<string>)
    requires keys != {}
    ensures exists k :: IsFirst(k, keys)
  {
    var x :| x in keys;
    var rest := keys - {x};
    if rest == {} {
      BeforeTotal(x, x);
      assert keys == {x} + rest;
      assert IsFirst(x, keys);
    } else {
      FirstExists(rest);
      var y :| IsFirst(y, rest);
      BeforeTotal(x, y);
      BeforeTotal(x, x);
      if Before(x, y) {
        forall j | j in keys ensures Before(x, j) {
          if j != x { BeforeTransitive(x, y, j); }
        }
        assert IsFirst(x, keys);
      } else {
        assert IsFirst(y, keys);
      }
    }
  }

  predicate IsFirst(k: string, keys: set<string>) {
    k in keys && forall j :: j in keys ==> Before(k, j)
  }

  lemma FirstUnique(keys: set<string>, a: string, b: string)
    requires IsFirst(a, keys) && IsFirst(b, keys)
    ensures a == b
  {
    BeforeAntisymmetric(a, b);
  }

  function First(keys: set<string>): (k: string)
    requires keys != {}
    ensures IsFirst(k, keys)
  {
    FirstExists(keys);
    assert forall a, b :: IsFirst(a, keys) && IsFirst(b, keys) ==> a == b by {
      forall a, b | IsFirst(a, keys) && IsFirst(b, keys) ensures a == b {
        FirstUnique(keys, a, b);
      }
    }
    var k :| IsFirst(k, keys);
    k
  }

  predicate IsListing(r: seq<string>, keys: set<string>) {
    && (forall k :: k in r ==> k in keys)
    && (forall k :: k in keys ==> k in r)
    && |r| == |keys|
    && (forall i, j :: 0 <= i < j < |r| ==> r[i] != r[j])
  }

  function Alphabetical(keys: set<string>): (r: seq<string>)
    ensures IsListing(r, keys)
    decreases |keys|
  {
    if keys == {} then [] else [First(keys)] + Alphabetical(keys - {First(keys)})
  }

  /** Left without a value, so that what is proved holds for every order of the keys of a dict. */
  const LISTING: set<string> -> seq<string>

  /** The keys of a dict in the order in which a loop over it visits them. */
  function KeySeq(keys: set<string>): (r: seq<string>)
    ensures forall k :: k in r <==> k in keys
    ensures |r| == |keys|
    ensures forall i, j :: 0 <= i < j < |r| ==> r[i] != r[j]
  {
    if IsListing(LISTING(keys), keys) then LISTING(keys) else Alphabetical(keys)
  }

  /** The keys that a loop over `keys` has visited before index i. */
  ghost function Visited(keys: seq<string>, i: nat): set<string>
    requires i <= |keys|
  {
    set j | 0 <= j < i :: keys[j]
  }

  lemma VisitNext(all: set<string>, i: nat)
    requires i < |all|
    ensures var keys := KeySeq(all);
      && keys[i] in all && keys[i] !in Visited(keys, i)
      && Visited(keys, i + 1) == Visited(keys, i) + {keys[i]}
  {
    hide Visited;
    var keys := KeySeq(all);
    var k := keys[i];
    assert k in keys;
    VisitOne(keys, i);
  }

  lemma VisitOne(keys: seq<string>, i: nat)
    requires i < |keys| && forall a, b :: 0 <= a < b < |keys| ==> keys[a] != keys[b]
    ensures keys[i] !in Visited(keys, i)
    ensures Visited(keys, i + 1) == Visited(keys, i) + {keys[i]}
  {
  }

  lemma VisitEnds(all: set<string>)
    ensures Visited(KeySeq(all), 0) == {} && Visited(KeySeq(all), |all|) == all
  {
    var keys := KeySeq(all);
    forall k | k in all ensures k in Visited(keys, |all|) {
      assert k in keys;
    }
    forall k | k in Visited(keys, |all|) ensures k in all {
      assert k in keys;
    }
  }
}
