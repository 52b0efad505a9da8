/** The JSON trees that nodes keep in `raw_metadata` and that patches are made of,
    and the order in which the comparator visits the keys of two dictionaries. */
module JsonTree {
  import Orders

  datatype Json =
    | Null
    | Bool(b: bool)
    | Int(i: int)
    | Float(r: real)
    | Str(s: string)
    | List(items: seq<Json>)
    | Obj(fields: Dict)

  type Dict = map<string, Json>

  /** `d.get(key)`: a missing key reads as null. */
  function Get(d: Dict, key: string): Json {
    if key in d then d[key] else Null
  }

  /** Strings compare by code point, a proper prefix first. */
  predicate AtMost(a: string, b: string) {
    a == "" || (b != "" && (a[0] < b[0] || (a[0] == b[0] && AtMost(a[1..], b[1..]))))
  }

  lemma {:induction false} AtMostIs(a: string, b: string)
    ensures AtMost(a, b) <==>
            a <= b || exists i :: 0 <= i < |a| && i < |b| && a[..i] == b[..i] && a[i] < b[i]
  {
    if a != "" && b != "" && a[0] == b[0] {
      var s, t := a[1..], b[1..];
      AtMostIs(s, t);
      assert a == [a[0]] + s && b == [b[0]] + t;
      if i :| 0 <= i < |s| && i < |t| && s[..i] == t[..i] && s[i] < t[i] {
        assert a[..i + 1] == [a[0]] + s[..i] && b[..i + 1] == [b[0]] + t[..i];
        assert a[i + 1] < b[i + 1];
      }
      if i :| 0 <= i < |a| && i < |b| && a[..i] == b[..i] && a[i] < b[i] {
        assert s[..i - 1] == a[..i][1..] && t[..i - 1] == b[..i][1..];
        assert s[i - 1] < t[i - 1];
      }
    } else if a != "" && b != "" && a[0] < b[0] {
      assert a[..0] == b[..0];
    }
  }

  lemma {:induction false} AtMostTotal(a: string, b: string)
    ensures AtMost(a, b) || AtMost(b, a)
    ensures AtMost(a, b) && AtMost(b, a) ==> a == b
  {
    if a != "" && b != "" && a[0] == b[0] {
      AtMostTotal(a[1..], b[1..]);
      assert a == [a[0]] + a[1..] && b == [b[0]] + b[1..];
    }
  }

  lemma {:induction false} AtMostTransitive(a: string, b: string, c: string)
    requires AtMost(a, b) && AtMost(b, c)
    ensures AtMost(a, c)
  {
    if a != "" && a[0] == b[0] && b[0] == c[0] {
      AtMostTransitive(a[1..], b[1..], c[1..]);
    }
  }

  lemma AtMostOrders()
    ensures forall a, b :: AtMost(a, b) || AtMost(b, a)
    ensures forall a, b, c | AtMost(a, b) && AtMost(b, c) :: AtMost(a, c)
  {
    forall a, b ensures AtMost(a, b) || AtMost(b, a) {
      AtMostTotal(a, b);
    }
    forall a, b, c | AtMost(a, b) && AtMost(b, c) ensures AtMost(a, c) {
      AtMostTransitive(a, b, c);
    }
  }

  predicate IsLeast(m: string, s: set<string>) {
    m in s && forall k | k in s :: AtMost(m, k)
  }

  lemma LeastIsOne(s: set<string>)
    requires s != {}
    ensures exists m :: IsLeast(m, s)
    ensures forall m, n | IsLeast(m, s) && IsLeast(n, s) :: m == n
  {
    AtMostOrders();
    Orders.LeastExists(s, AtMost);
    var m :| m in s && forall k | k in s :: AtMost(m, k);
    assert IsLeast(m, s);
    forall a, b | IsLeast(a, s) && IsLeast(b, s) ensures a == b {
      AtMostTotal(a, b);
    }
  }

  function Least(s: set<string>): (m: string)
    requires s != {}
    ensures IsLeast(m, s)
  {
    LeastIsOne(s);
    var m :| IsLeast(m, s);
    m
  }

  datatype Option<+T> = None | Some(value: T)

  /** The value at a path of keys, if every step finds its key in a dictionary. */
  function Lookup(tree: Json, path: seq<string>): Option<Json> {
    if path == [] then Some(tree)
    else if tree.Obj? && path[0] in tree.fields then Lookup(tree.fields[path[0]], path[1..])
    else None
  }

  /** Some non-dictionary value of `tree` sits at a proper prefix of `path`. */
  predicate Blocked(tree: Json, path: seq<string>) {
    path != [] && (!tree.Obj? || (path[0] in tree.fields && Blocked(tree.fields[path[0]], path[1..])))
  }

  lemma UpdatedAt(before: Dict, after: Dict, key: string, value: Json)
    requires after.Keys == before.Keys + {key} && after[key] == value
    requires forall k | k in before && k != key :: after[k] == before[k]
    ensures after == before[key := value]
  {
  }

  predicate Distinct<T(==)>(s: seq<T>) {
    forall i, j | 0 <= i < j < |s| :: s[i] != s[j]
  }

  /** `sorted(s)` for a set of strings. */
  function SortedKeys(s: set<string>): (keys: seq<string>)
    ensures forall k :: k in keys <==> k in s
    ensures Distinct(keys)
    ensures forall i, j | 0 <= i < j < |keys| :: AtMost(keys[i], keys[j])
    decreases |s|
  {
    if s == {} then [] else
      var m := Least(s);
      [m] + SortedKeys(s - {m})
  }
}
