/** The structured editor: rows made from a message descriptor, and the patch made from rows. */
module Editor {
  import opened JsonTree
  import opened Paths
  import opened Comparing
  import opened Text

  datatype Kind = Enum(options: seq<string>) | Boolean | Integer | Floating | Bytes | Textual | Repeated

  datatype Field =
    | Scalar(name: string, kind: Kind)
    | Message(name: string, fields: seq<Field>)

  datatype Row = Row(path: string, kind: Kind, value: Json)

  // ---------- sensitive names ----------

  const SENSITIVE: set<string> :=
    {"security", "privatekey", "publickey", "password", "psk", "primarychannelurl", "secret", "token"}

  predicate SensitiveSegment(segment: string) {
    Sensitive(Strip(segment), SENSITIVE, "password")
  }

  predicate Sensitive(s: string, names: set<string>, ending: string) {
    Lower(s) in names || EndsWith(Lower(s), ending)
  }

  predicate EndsWith(s: string, ending: string) {
    |ending| <= |s| && s[|s| - |ending|..] == ending
  }

  predicate SensitivePath(path: seq<string>) {
    exists s :: s in path && SensitiveSegment(s)
  }

  /** The same letters, in upper or lower case. */
  predicate SameLetters(a: string, b: string) {
    |a| == |b| && forall i | 0 <= i < |a| :: SameLetter(a[i] as int, b[i] as int)
  }

  predicate SameLetter(a: int, b: int) {
    a == b || (65 <= a <= 90 && b == a + 32) || (65 <= b <= 90 && a == b + 32)
  }

  lemma {:induction false} StripKeepsLetters(a: string, b: string)
    requires SameLetters(a, b)
    ensures SameLetters(Strip(a), Strip(b))
    decreases |a|
  {
    if a != "" {
      assert SameLetter(a[0] as int, b[0] as int) && SameLetter(a[|a| - 1] as int, b[|a| - 1] as int);
      if Blank(a[0]) {
        StripKeepsLetters(a[1..], b[1..]);
      } else if Blank(a[|a| - 1]) {
        StripKeepsLetters(a[..|a| - 1], b[..|a| - 1]);
      }
    }
  }

  predicate SmallLetters(s: string) {
    forall i | 0 <= i < |s| :: 97 <= s[i] as int <= 122
  }

  lemma LowerIff(s: string, name: string)
    requires SmallLetters(name)
    ensures Lower(s) == name <==> SameLetters(s, name)
  {
    CaseIs(s);
    if SameLetters(s, name) {
      forall i | 0 <= i < |s| ensures Lower(s)[i] == name[i] {
        assert SameLetter(s[i] as int, name[i] as int);
      }
    }
  }

  lemma SensitiveAreSmall()
    ensures SmallLetters("password") && forall name | name in SENSITIVE :: SmallLetters(name)
  {
  }

  lemma ListedIff(s: string, names: set<string>)
    requires forall name | name in names :: SmallLetters(name)
    ensures Lower(s) in names <==> exists name :: name in names && SameLetters(s, name)
  {
    if Lower(s) in names {
      LowerIff(s, Lower(s));
    }
    if name :| name in names && SameLetters(s, name) {
      LowerIff(s, name);
    }
  }

  lemma EndsIff(s: string, ending: string)
    requires SmallLetters(ending)
    ensures EndsWith(Lower(s), ending) <==> |ending| <= |s| && SameLetters(s[|s| - |ending|..], ending)
  {
    if |ending| <= |s| {
      LowerIff(s[|s| - |ending|..], ending);
      assert Lower(s)[|s| - |ending|..] == Lower(s[|s| - |ending|..]);
    }
  }

  /** One of the names, or something with the ending, in any case. */
  ghost predicate Spelled(s: string, names: set<string>, ending: string) {
    || (exists name :: name in names && SameLetters(s, name))
    || (|ending| <= |s| && SameLetters(s[|s| - |ending|..], ending))
  }

  lemma ListedOrEnding(s: string, names: set<string>, ending: string)
    requires SmallLetters(ending) && forall name | name in names :: SmallLetters(name)
    ensures Sensitive(s, names, ending) <==> Spelled(s, names, ending)
  {
    ListedIff(s, names);
    EndsIff(s, ending);
  }

  /** Exactly the listed names are sensitive, and everything that ends in `password`, in any case and with
      whitespace around. */
  lemma SensitiveIff(segment: string)
    ensures SensitiveSegment(segment) <==> Spelled(Strip(segment), SENSITIVE, "password")
  {
    SensitiveAreSmall();
    ListedOrEnding(Strip(segment), SENSITIVE, "password");
  }

  /** A name is sensitive in any case. */
  lemma CaseDoesNotMatter(a: string, b: string)
    requires SameLetters(a, b)
    ensures SensitiveSegment(a) <==> SensitiveSegment(b)
  {
    StripKeepsLetters(a, b);
    CaseIs(Strip(a));
    CaseIs(Strip(b));
    forall i | 0 <= i < |Strip(a)| ensures Lower(Strip(a))[i] as int == Lower(Strip(b))[i] as int {
      assert SameLetter(Strip(a)[i] as int, Strip(b)[i] as int);
    }
    assert Lower(Strip(a)) == Lower(Strip(b));
  }

  // ---------- rows ----------

  /** Rows by their dotted path; where two rows share a path the later one stays. */
  function Rows(fields: seq<Field>, current: Json, prefix: seq<string>): map<string, Row>
    decreases fields
  {
    if fields == [] then map[] else FieldRows(fields[0], current, prefix) + Rows(fields[1..], current, prefix)
  }

  function FieldRows(field: Field, current: Json, prefix: seq<string>): map<string, Row>
    decreases field
  {
    var path := prefix + [field.name];
    if SensitivePath(path) then map[]
    else match field
         case Message(_, fields) => Rows(fields, current, path)
         case Scalar(_, kind) => map[Join(path) := Row(Join(path), kind, Shown(kind, ValueAt(current, path)))]
  }

  /** What a field without a value shows: an enum its first option, a repeated field an empty list. */
  function Shown(kind: Kind, value: Json): Json {
    match kind
    case Enum(options) => if value == Null && options != [] then Str(options[0]) else value
    case Repeated => if value == Null then List([]) else value
    case _ => value
  }

  /** `_descriptor_to_rows`, in path order. */
  function DescriptorToRows(fields: seq<Field>, current: Json, prefix: seq<string>): seq<Row> {
    var rows := Rows(fields, current, prefix);
    var names := SortedKeys(rows.Keys);
    seq(|names|, i requires 0 <= i < |names| => rows[names[i]])
  }

  // ---------- the leaves of a descriptor ----------

  function Leaves(fields: seq<Field>): set<seq<string>>
    decreases fields
  {
    if fields == [] then {} else FieldLeaves(fields[0]) + Leaves(fields[1..])
  }

  function FieldLeaves(field: Field): set<seq<string>>
    decreases field
  {
    match field
    case Scalar(name, _) => {[name]}
    case Message(name, fields) => set p | p in Leaves(fields) :: [name] + p
  }

  /** Sibling names differ and are plain, at every level. */
  predicate WellNamed(fields: seq<Field>)
    decreases fields
  {
    fields != [] ==>
      && Plain(fields[0].name)
      && (fields[0].Message? ==> WellNamed(fields[0].fields))
      && (forall f | f in fields[1..] :: f.name != fields[0].name)
      && WellNamed(fields[1..])
  }

  lemma {:induction false} LeavesStartWithNames(fields: seq<Field>, p: seq<string>)
    requires p in Leaves(fields)
    ensures p != [] && exists f :: f in fields && f.name == p[0] && p in FieldLeaves(f)
    decreases fields
  {
    if p in FieldLeaves(fields[0]) {
      assert fields[0] in fields;
    } else {
      LeavesStartWithNames(fields[1..], p);
      var f :| f in fields[1..] && f.name == p[0] && p in FieldLeaves(f);
      assert f in fields;
    }
  }

  lemma {:induction false} LeavesApart(fields: seq<Field>, p: seq<string>, q: seq<string>)
    requires WellNamed(fields) && p in Leaves(fields) && q in Leaves(fields) && p != q
    ensures Incomparable(p, q)
    decreases fields
  {
    LeavesStartWithNames(fields, p);
    LeavesStartWithNames(fields, q);
    var f := fields[0];
    if p in FieldLeaves(f) && q in FieldLeaves(f) {
      if f.Message? {
        var p', q' :| p' in Leaves(f.fields) && q' in Leaves(f.fields) && p == [f.name] + p' && q == [f.name] + q';
        LeavesApart(f.fields, p', q');
        assert p[1..] == p' && q[1..] == q';
        IncomparableTails(p, q);
      }
    } else if p in Leaves(fields[1..]) && q in Leaves(fields[1..]) {
      LeavesApart(fields[1..], p, q);
    } else if p in Leaves(fields[1..]) {
      LeavesStartWithNames(fields[1..], p);
    } else {
      LeavesStartWithNames(fields[1..], q);
    }
  }

  lemma {:induction false} LeavesArePlain(fields: seq<Field>, p: seq<string>)
    requires WellNamed(fields) && p in Leaves(fields)
    ensures p != [] && PlainPath(p)
    decreases fields
  {
    LeavesStartWithNames(fields, p);
    if p in FieldLeaves(fields[0]) {
      if fields[0].Message? {
        var p' :| p' in Leaves(fields[0].fields) && p == [fields[0].name] + p';
        LeavesArePlain(fields[0].fields, p');
      }
    } else {
      LeavesArePlain(fields[1..], p);
    }
  }

  lemma SensitiveConcat(a: seq<string>, b: seq<string>)
    ensures SensitivePath(a + b) <==> SensitivePath(a) || SensitivePath(b)
  {
    if s :| s in a && SensitiveSegment(s) {
      assert s in a + b;
    }
    if s :| s in b && SensitiveSegment(s) {
      assert s in a + b;
    }
  }

  /** Cutting sensitive branches off while descending leaves exactly the leaves with no sensitive
      segment anywhere in their path. */
  lemma {:induction false} RowsAreTheOpenLeaves(fields: seq<Field>, current: Json, prefix: seq<string>, name: string)
    requires !SensitivePath(prefix)
    ensures name in Rows(fields, current, prefix) <==>
            exists p :: p in Leaves(fields) && !SensitivePath(p) && name == Join(prefix + p)
    decreases fields
  {
    if fields != [] {
      var f := fields[0];
      RowsAreTheOpenLeaves(fields[1..], current, prefix, name);
      FieldRowsAreItsOpenLeaves(f, current, prefix, name);
    }
  }

  lemma {:induction false} FieldRowsAreItsOpenLeaves(f: Field, current: Json, prefix: seq<string>, name: string)
    requires !SensitivePath(prefix)
    ensures name in FieldRows(f, current, prefix) <==>
            exists p :: p in FieldLeaves(f) && !SensitivePath(p) && name == Join(prefix + p)
    decreases f
  {
    var path := prefix + [f.name];
    SensitiveConcat(prefix, [f.name]);
    match f {
      case Scalar(_, _) =>
        if name in FieldRows(f, current, prefix) {
          assert [f.name] in FieldLeaves(f) && name == Join(prefix + [f.name]);
        }
      case Message(_, inner) =>
        forall p
          ensures SensitivePath([f.name] + p) <==> SensitivePath([f.name]) || SensitivePath(p)
          ensures prefix + ([f.name] + p) == path + p
        {
          SensitiveConcat([f.name], p);
        }
        if !SensitivePath(path) {
          RowsAreTheOpenLeaves(inner, current, path, name);
          if p :| p in Leaves(inner) && !SensitivePath(p) && name == Join(path + p) {
            assert [f.name] + p in FieldLeaves(f);
          }
        }
    }
  }

  /** The descriptor has a leaf of this kind at the path. */
  predicate HasLeaf(fields: seq<Field>, p: seq<string>, kind: Kind)
    decreases fields
  {
    fields != [] && (FieldHasLeaf(fields[0], p, kind) || HasLeaf(fields[1..], p, kind))
  }

  predicate FieldHasLeaf(field: Field, p: seq<string>, kind: Kind)
    decreases field
  {
    match field
    case Scalar(name, k) => p == [name] && k == kind
    case Message(name, fields) => p != [] && p[0] == name && HasLeaf(fields, p[1..], kind)
  }

  lemma {:induction false} HasLeafIsLeaf(fields: seq<Field>, p: seq<string>, kind: Kind)
    requires HasLeaf(fields, p, kind)
    ensures p in Leaves(fields)
    decreases fields
  {
    if HasLeaf(fields[1..], p, kind) {
      HasLeafIsLeaf(fields[1..], p, kind);
    } else if fields[0].Message? {
      HasLeafIsLeaf(fields[0].fields, p[1..], kind);
      assert p == [fields[0].name] + p[1..];
    }
  }

  lemma {:induction false} LeafHasKind(fields: seq<Field>, p: seq<string>) returns (kind: Kind)
    requires p in Leaves(fields)
    ensures HasLeaf(fields, p, kind)
    decreases fields
  {
    if p in Leaves(fields[1..]) {
      kind := LeafHasKind(fields[1..], p);
    } else {
      match fields[0] {
        case Scalar(_, k) => kind := k;
        case Message(name, inner) =>
          var p' :| p' in Leaves(inner) && p == [name] + p';
          kind := LeafHasKind(inner, p');
          assert p[1..] == p';
      }
    }
  }

  lemma PlainConcat(a: seq<string>, b: seq<string>)
    requires PlainPath(a) && PlainPath(b)
    ensures PlainPath(a + b)
  {
  }

  lemma SameNameSamePath(prefix: seq<string>, p: seq<string>, q: seq<string>)
    requires PlainPath(prefix) && PlainPath(p) && PlainPath(q) && p != [] && q != []
    requires Join(prefix + p) == Join(prefix + q)
    ensures p == q
  {
    PlainConcat(prefix, p);
    PlainConcat(prefix, q);
    SplitJoin(prefix + p);
    SplitJoin(prefix + q);
    assert (prefix + p)[|prefix|..] == p && (prefix + q)[|prefix|..] == q;
  }

  lemma {:induction false} RowHolds(fields: seq<Field>, current: Json, prefix: seq<string>, p: seq<string>, kind: Kind)
    requires WellNamed(fields) && PlainPath(prefix) && HasLeaf(fields, p, kind) && !SensitivePath(prefix + p)
    ensures var name := Join(prefix + p);
            name in Rows(fields, current, prefix) &&
            Rows(fields, current, prefix)[name] == Row(name, kind, Shown(kind, ValueAt(current, prefix + p)))
    decreases fields
  {
    var f, name := fields[0], Join(prefix + p);
    HasLeafIsLeaf(fields, p, kind);
    LeavesArePlain(fields, p);
    if HasLeaf(fields[1..], p, kind) {
      RowHolds(fields[1..], current, prefix, p, kind);
    } else {
      FieldRowHolds(f, current, prefix, p, kind);
      if name in Rows(fields[1..], current, prefix) {
        SensitiveConcat(prefix, p);
        RowsAreTheOpenLeaves(fields[1..], current, prefix, name);
        var q :| q in Leaves(fields[1..]) && !SensitivePath(q) && name == Join(prefix + q);
        LeavesArePlain(fields[1..], q);
        SameNameSamePath(prefix, p, q);
        LeavesStartWithNames(fields[1..], q);
        assert false;
      }
    }
  }

  lemma {:induction false} FieldRowHolds(f: Field, current: Json, prefix: seq<string>, p: seq<string>, kind: Kind)
    requires Plain(f.name) && (f.Message? ==> WellNamed(f.fields)) && PlainPath(prefix)
    requires FieldHasLeaf(f, p, kind) && !SensitivePath(prefix + p)
    ensures var name := Join(prefix + p);
            name in FieldRows(f, current, prefix) &&
            FieldRows(f, current, prefix)[name] == Row(name, kind, Shown(kind, ValueAt(current, prefix + p)))
    decreases f
  {
    var path := prefix + [f.name];
    assert p[0] == f.name && prefix + p == path + p[1..];
    SensitiveConcat(path, p[1..]);
    if f.Message? {
      PlainConcat(prefix, [f.name]);
      RowHolds(f.fields, current, path, p[1..], kind);
    } else {
      assert path + p[1..] == path;
    }
  }

  /** The value itself, or for a missing one what its kind has instead. */
  predicate ShownAs(kind: Kind, value: Json, shown: Json) {
    if value != Null then shown == value
    else
      && (kind.Enum? && kind.options != [] ==> shown == Str(kind.options[0]))
      && (kind.Repeated? ==> shown == List([]))
      && (!kind.Repeated? && !(kind.Enum? && kind.options != []) ==> shown == Null)
  }

  /** Every emitted row is an open leaf's: its dotted path, its kind and the value the message has there. */
  lemma RowsHoldTheirLeaves(fields: seq<Field>, current: Json, row: Row)
    requires WellNamed(fields)
    ensures row in DescriptorToRows(fields, current, []) <==> exists p :: IsRowOf(fields, current, p, row)
  {
    if row in DescriptorToRows(fields, current, []) {
      var p := RowHasLeaf(fields, current, row);
    }
    if p :| IsRowOf(fields, current, p, row) {
      LeafHasRow(fields, current, p, row);
    }
  }

  predicate IsRowOf(fields: seq<Field>, current: Json, p: seq<string>, row: Row) {
    && HasLeaf(fields, p, row.kind) && !SensitivePath(p)
    && row.path == Join(p) && ShownAs(row.kind, ValueAt(current, p), row.value)
  }

  lemma EmittedIffNamed(fields: seq<Field>, current: Json, row: Row)
    ensures row in DescriptorToRows(fields, current, []) <==>
            row.path in Rows(fields, current, []) && Rows(fields, current, [])[row.path] == row
  {
    var table := Rows(fields, current, []);
    var rows, names := DescriptorToRows(fields, current, []), SortedKeys(table.Keys);
    if row in rows {
      var i :| 0 <= i < |rows| && rows[i] == row;
      assert names[i] in names;
      RowsArePathed(fields, current, [], names[i]);
    }
    if row.path in table && table[row.path] == row {
      assert row.path in names;
      var i :| 0 <= i < |names| && names[i] == row.path;
      assert rows[i] == row;
    }
  }

  lemma RowHasLeaf(fields: seq<Field>, current: Json, row: Row) returns (p: seq<string>)
    requires WellNamed(fields) && row in DescriptorToRows(fields, current, [])
    ensures IsRowOf(fields, current, p, row)
  {
    EmittedIffNamed(fields, current, row);
    RowsAreTheOpenLeaves(fields, current, [], row.path);
    p :| p in Leaves(fields) && !SensitivePath(p) && row.path == Join([] + p);
    var kind := LeafHasKind(fields, p);
    RowHoldsAtTop(fields, current, p, kind);
    assert [] + p == p;
  }

  lemma RowHoldsAtTop(fields: seq<Field>, current: Json, p: seq<string>, kind: Kind)
    requires WellNamed(fields) && HasLeaf(fields, p, kind) && !SensitivePath(p)
    ensures Join(p) in Rows(fields, current, []) &&
            Rows(fields, current, [])[Join(p)] == Row(Join(p), kind, Shown(kind, ValueAt(current, p)))
  {
    assert [] + p == p;
    RowHolds(fields, current, [], p, kind);
  }

  lemma LeafHasRow(fields: seq<Field>, current: Json, p: seq<string>, row: Row)
    requires WellNamed(fields) && IsRowOf(fields, current, p, row)
    ensures row in DescriptorToRows(fields, current, [])
  {
    RowHoldsAtTop(fields, current, p, row.kind);
    ShownIs(row.kind, ValueAt(current, p), row.value);
    EmittedIffNamed(fields, current, row);
  }

  lemma ShownIs(kind: Kind, value: Json, shown: Json)
    ensures ShownAs(kind, value, shown) <==> shown == Shown(kind, value)
  {
  }

  // ---------- submission ----------

  /** The writes a submission makes: each row's path split at its dots. */
  function Submission(names: seq<string>, values: map<string, Json>): seq<Edit>
    requires forall n | n in names :: n in values
  {
    seq(|names|, i requires 0 <= i < |names| => Edit(Split(names[i]), values[names[i]]))
  }

  lemma RowNameSplits(fields: seq<Field>, current: Json, name: string)
    requires WellNamed(fields) && name in Rows(fields, current, [])
    ensures Split(name) in Leaves(fields) && !SensitivePath(Split(name)) && Join(Split(name)) == name
  {
    RowsAreTheOpenLeaves(fields, current, [], name);
    var p :| p in Leaves(fields) && !SensitivePath(p) && name == Join([] + p);
    assert [] + p == p;
    LeavesArePlain(fields, p);
    SplitJoin(p);
  }

  lemma SubmissionIsPrefixFree(fields: seq<Field>, current: Json, names: seq<string>, values: map<string, Json>)
    requires WellNamed(fields) && Distinct(names)
    requires forall n | n in names :: n in Rows(fields, current, []) && n in values
    ensures PrefixFree(Submission(names, values))
    ensures ApplyEdits(map[], Submission(names, values)).Some?
  {
    var edits := Submission(names, values);
    forall i | 0 <= i < |edits|
      ensures edits[i].path in Leaves(fields) && Join(edits[i].path) == names[i]
      ensures edits[i].path != [] && !Blocked(Obj(map[]), edits[i].path)
    {
      assert names[i] in names;
      RowNameSplits(fields, current, names[i]);
    }
    forall i, j | 0 <= i < |edits| && 0 <= j < |edits| && i != j
      ensures Incomparable(edits[i].path, edits[j].path)
    {
      assert names[i] != names[j];
      LeavesApart(fields, edits[i].path, edits[j].path);
    }
    BatchSucceeds(map[], edits);
  }

  predicate OpenLeaf(fields: seq<Field>, p: seq<string>) {
    p in Leaves(fields) && !SensitivePath(p)
  }

  /** The path holds an open leaf's value, or part of it, or is a dictionary above an open leaf. */
  ghost predicate OnALeaf(fields: seq<Field>, patch: Json, q: seq<string>)
    requires Lookup(patch, q).Some?
  {
    exists p :: OpenLeaf(fields, p) && (p <= q || (q < p && Lookup(patch, q).value.Obj?))
  }

  /** Every open leaf holds the value given under its name, and nothing else is there. */
  ghost predicate Fills(fields: seq<Field>, values: map<string, Json>, patch: Json) {
    && (forall p | OpenLeaf(fields, p) :: Join(p) in values && Lookup(patch, p) == Some(values[Join(p)]))
    && (forall q | q != [] && Lookup(patch, q).Some? :: OnALeaf(fields, patch, q))
  }

  lemma SubmissionRoundTrip(fields: seq<Field>, current: Json, names: seq<string>, values: map<string, Json>)
    requires WellNamed(fields) && Distinct(names)
    requires forall n :: n in names <==> n in Rows(fields, current, [])
    requires forall n | n in names :: n in values
    ensures ApplyEdits(map[], Submission(names, values)).Some?
    ensures Fills(fields, values, Obj(ApplyEdits(map[], Submission(names, values)).value))
  {
    SubmissionIsPrefixFree(fields, current, names, values);
    var edits := Submission(names, values);
    var patch := Obj(ApplyEdits(map[], edits).value);
    forall p | OpenLeaf(fields, p)
      ensures Join(p) in names && Lookup(patch, p) == Some(values[Join(p)])
    {
      RowsAreTheOpenLeaves(fields, current, [], Join(p));
      assert [] + p == p;
      assert Join(p) in names;
      var i :| 0 <= i < |names| && names[i] == Join(p);
      LeavesArePlain(fields, p);
      SplitJoin(p);
      BatchIsReadBack(map[], edits, i);
    }
    forall q | Lookup(patch, q).Some? && q != []
      ensures OnALeaf(fields, patch, q)
    {
      BatchMakesNothingElse(map[], edits, q);
      var i :| 0 <= i < |edits| && !Incomparable(edits[i].path, q);
      var p := edits[i].path;
      assert names[i] in names;
      RowNameSplits(fields, current, names[i]);
      BatchIsReadBack(map[], edits, i);
      assert OpenLeaf(fields, p);
      if !(p <= q) {
        AboveIsDict(patch, q, p);
      }
    }
  }

  function PathsOf(rows: seq<Row>): seq<string> {
    seq(|rows|, i requires 0 <= i < |rows| => rows[i].path)
  }

  lemma {:induction false} RowsArePathed(fields: seq<Field>, current: Json, prefix: seq<string>, name: string)
    requires name in Rows(fields, current, prefix)
    ensures Rows(fields, current, prefix)[name].path == name
    decreases fields
  {
    if name in Rows(fields[1..], current, prefix) {
      RowsArePathed(fields[1..], current, prefix, name);
    } else if fields[0].Message? {
      RowsArePathed(fields[0].fields, current, prefix + [fields[0].name], name);
    }
  }

  lemma EmittedPaths(fields: seq<Field>, current: Json)
    ensures PathsOf(DescriptorToRows(fields, current, [])) == SortedKeys(Rows(fields, current, []).Keys)
  {
    var names := SortedKeys(Rows(fields, current, []).Keys);
    forall i | 0 <= i < |names| ensures DescriptorToRows(fields, current, [])[i].path == names[i] {
      assert names[i] in names;
      RowsArePathed(fields, current, [], names[i]);
    }
  }

  lemma ShuffledIsDistinct(a: seq<string>, b: seq<string>)
    requires Distinct(a) && multiset(a) == multiset(b)
    ensures Distinct(b) && forall x :: x in a <==> x in b
  {
    forall x ensures x in a <==> x in b {
      assert x in multiset(a) <==> x in multiset(b);
    }
    forall i, j | 0 <= i < j < |b| && b[i] == b[j] ensures false {
      assert multiset(b)[b[i]] >= 2 by {
        assert b == b[..j] + [b[j]] + b[j + 1..];
        assert b[i] in b[..j];
      }
      AtMostOnce(a, b[i]);
    }
  }

  lemma {:induction false} AtMostOnce(a: seq<string>, x: string)
    requires Distinct(a)
    ensures multiset(a)[x] <= 1
  {
    if a != [] {
      AtMostOnce(a[1..], x);
      assert a == [a[0]] + a[1..];
      assert a[0] !in a[1..];
    }
  }

  /** Submitting the emitted rows in any order never hits a non-dictionary, and the leaves of the patch
      are exactly the descriptor's non-sensitive leaves, each with the value submitted for its row. */
  lemma EditorRoundTrip(fields: seq<Field>, current: Json, names: seq<string>, values: map<string, Json>)
    requires WellNamed(fields) && multiset(names) == multiset(PathsOf(DescriptorToRows(fields, current, [])))
    requires forall n | n in names :: n in values
    ensures ApplyEdits(map[], Submission(names, values)).Some?
    ensures Fills(fields, values, Obj(ApplyEdits(map[], Submission(names, values)).value))
  {
    EmittedPaths(fields, current);
    ShuffledIsDistinct(SortedKeys(Rows(fields, current, []).Keys), names);
    SubmissionRoundTrip(fields, current, names, values);
  }
}
