/** The field flattener and CSV encoder of src/csv.ts: dot-path lookup in
    an item, one row per item, and the call into the CSV serialiser. */
module Csv {
  import opened Results
  import opened Json
  import Text

  /** Property access `o?.[k]` on a value that may be absent: absent and
      null give absent; an object gives its member; an array gives the
      element a canonical index names; every other value gives absent. */
  function Step(o: Option<Json>, k: string): (r: Option<Json>)
    ensures o.None? || o == Some(Null) ==> r.None?
    ensures o.Some? && o.value.Object? ==>
              r == (if k in o.value.members then Some(o.value.members[k]) else None)
  {
    match o
    case Some(Object(m)) => if k in m then Some(m[k]) else None
    case Some(Array(xs)) =>
      (match Text.ParseIndex(k)
       case Some(i) => if i < |xs| then Some(xs[i]) else None
       case None => None)
    case _ => None
  }

  /** `keys.reduce((o, k) => o?.[k], start)`: follow the keys left to
      right. No keys leave the start as it is, and an absent start stays
      absent. */
  function Walk(start: Option<Json>, keys: seq<string>): (r: Option<Json>)
    ensures |keys| == 0 ==> r == start
    ensures start.None? ==> r.None?
    decreases |keys|
  {
    if |keys| == 0 then start else Walk(Step(start, keys[0]), keys[1..])
  }

  /** `getValue(obj, path)`: the value at the dot-separated `path` inside
      `obj`, or None (JavaScript's `undefined`) if the path does not
      resolve. */
  function GetValue(obj: Json, path: string): (r: Option<Json>)
    ensures '.' !in path ==> r == Step(Some(obj), path)
    ensures obj == Null ==> r.None?
  {
    assert '.' !in path ==> Text.Split(path, '.') == [path] by {
      if '.' !in path {
        Text.SplitNoSeparator(path, '.');
      }
    }
    Walk(Some(obj), Text.Split(path, '.'))
  }

  /** Array element selection: the decimal rendering of an index selects
      that element when it is in range and nothing otherwise, and a name
      that is not a canonical index selects nothing. */
  lemma StepArray(xs: seq<Json>, k: string, n: nat)
    ensures k == Text.NatToString(n) ==>
              Step(Some(Array(xs)), k) == (if n < |xs| then Some(xs[n]) else None)
    ensures Text.ParseIndex(k).None? ==> Step(Some(Array(xs)), k) == None
  {
    Text.ParseIndexIsNatToString(k, n);
  }

  /** Once absent, a walk stays absent: no error is raised. */
  lemma {:induction false} WalkAbsent(keys: seq<string>)
    ensures Walk(None, keys) == None
  {
    if |keys| > 0 {
      WalkAbsent(keys[1..]);
    }
  }

  /** Walking a concatenation is walking each part in turn. */
  lemma {:induction false} WalkAppend(start: Option<Json>, a: seq<string>, b: seq<string>)
    ensures Walk(start, a + b) == Walk(Walk(start, a), b)
    decreases |a|
  {
    if |a| > 0 {
      assert (a + b)[0] == a[0] && (a + b)[1..] == a[1..] + b;
      WalkAppend(Step(start, a[0]), a[1..], b);
    } else {
      assert a + b == b;
    }
  }

  /** Compositionality of dot paths: looking up `p.q` is looking up `q`
      in whatever `p` resolves to, with absence propagating. */
  lemma GetValueCompose(obj: Json, p: string, q: string)
    ensures GetValue(obj, p + "." + q) == Walk(GetValue(obj, p), Text.Split(q, '.'))
  {
    Text.SplitAppend(p, q, '.');
    WalkAppend(Some(obj), Text.Split(p, '.'), Text.Split(q, '.'));
  }

  /** A path with no dot is a single key lookup. */
  lemma GetValueSingleKey(obj: Json, key: string)
    requires '.' !in key
    ensures GetValue(obj, key) == Step(Some(obj), key)
  {
    Text.SplitNoSeparator(key, '.');
    assert Walk(Some(obj), [key]) == Walk(Step(Some(obj), key), []) by {
      assert [key][1..] == [];
    }
  }

  /** A path `a.b` of two keys is two property accesses in turn. */
  lemma GetValueTwoKeys(obj: Json, a: string, b: string)
    requires '.' !in a && '.' !in b
    ensures GetValue(obj, a + "." + b) == Step(Step(Some(obj), a), b)
  {
    GetValueCompose(obj, a, b);
    GetValueSingleKey(obj, a);
    Text.SplitNoSeparator(b, '.');
    assert [b][1..] == [];
  }

  /** If some prefix of the path is already unresolved, or resolves to
      null, the whole lookup is absent. */
  lemma GetValueMissing(obj: Json, p: string, q: string)
    requires GetValue(obj, p).None? || GetValue(obj, p) == Some(Null)
    ensures GetValue(obj, p + "." + q).None?
  {
    GetValueCompose(obj, p, q);
    var keys := Text.Split(q, '.');
    assert Walk(GetValue(obj, p), keys) == Walk(Step(GetValue(obj, p), keys[0]), keys[1..]);
    WalkAbsent(keys[1..]);
  }

  /** Looking anything up in null gives absent. */
  lemma GetValueOfNull(path: string)
    ensures GetValue(Null, path).None?
  {
    var keys := Text.Split(path, '.');
    WalkAbsent(keys[1..]);
  }

  /** The documented example: `title.rendered` in
      `{ title: { rendered: "Hello World" } }`. */
  lemma GetValueExample(post: Json, path: string)
    requires post == Object(map["title" := Object(map["rendered" := Str("Hello World")])])
    requires path == "title.rendered"
    ensures GetValue(post, path) == Some(Str("Hello World"))
  {
    var t, r := "title", "rendered";
    assert path == t + "." + r;
    GetValueTwoKeys(post, t, r);
  }

  // ---------------------------------------------------------------------
  // rows
  // ---------------------------------------------------------------------

  /** A row maps each field path to what it resolved to in one item. */
  type Row = map<string, Option<Json>>

  /** The `for (const field of fields) row[field] = getValue(item, field)`
      loop, started from `row`. */
  function FillRow(row: Row, item: Json, fields: seq<string>): (r: Row)
    ensures r.Keys == row.Keys + set f | f in fields
    ensures forall f :: f in fields ==> r[f] == GetValue(item, f)
    ensures forall k :: k in row && k !in fields ==> r[k] == row[k]
    decreases |fields|
  {
    if |fields| == 0 then row
    else FillRow(row[fields[0] := GetValue(item, fields[0])], item, fields[1..])
  }

  /** The row built for one item: keyed by exactly the field list. */
  function BuildRow(item: Json, fields: seq<string>): (r: Row)
    ensures r.Keys == set f | f in fields
    ensures forall f :: f in fields ==> r[f] == GetValue(item, f)
  {
    FillRow(map[], item, fields)
  }

  /** What the rows for `items` must be: one per item, in item order, each
      keyed by exactly the field list and holding what each field path
      resolves to in its item. */
  predicate RowsOf(items: seq<Json>, fields: seq<string>, rows: seq<Row>) {
    && |rows| == |items|
    && (forall i :: 0 <= i < |items| ==> rows[i].Keys == set f | f in fields)
    && (forall i, f :: 0 <= i < |items| && f in fields ==> rows[i][f] == GetValue(items[i], f))
  }

  /** The rows are determined by the items and the fields. */
  lemma RowsOfUnique(items: seq<Json>, fields: seq<string>, a: seq<Row>, b: seq<Row>)
    requires RowsOf(items, fields, a) && RowsOf(items, fields, b)
    ensures a == b
  {
    forall i | 0 <= i < |items|
      ensures a[i] == b[i]
    {
      assert forall f :: f in a[i] ==> f in fields;
    }
  }

  /** The example of toCSV's documentation: one post, columns
      `title.rendered` and `slug`. */
  lemma RowsExample(post: Json, titlePath: string, slugPath: string)
    requires post == Object(map["title" := Object(map["rendered" := Str("Post 1")]), "slug" := Str("post-1")])
    requires titlePath == "title.rendered" && slugPath == "slug"
    ensures var rows := BuildRows([post], [titlePath, slugPath]);
            && |rows| == 1
            && rows[0].Keys == {titlePath, slugPath}
            && rows[0][titlePath] == Some(Str("Post 1"))
            && rows[0][slugPath] == Some(Str("post-1"))
  {
    var fields := [titlePath, slugPath];
    var rows := BuildRows([post], fields);
    ExamplePostTitle(post, titlePath);
    ExamplePostSlug(post, slugPath);
    assert titlePath in fields && slugPath in fields;
    assert (set f | f in fields) == {titlePath, slugPath};
  }

  lemma ExamplePostSlug(post: Json, slugPath: string)
    requires post == Object(map["title" := Object(map["rendered" := Str("Post 1")]), "slug" := Str("post-1")])
    requires slugPath == "slug"
    ensures GetValue(post, slugPath) == Some(Str("post-1"))
  {
    GetValueSingleKey(post, slugPath);
  }

  lemma ExamplePostTitle(post: Json, titlePath: string)
    requires post == Object(map["title" := Object(map["rendered" := Str("Post 1")]), "slug" := Str("post-1")])
    requires titlePath == "title.rendered"
    ensures GetValue(post, titlePath) == Some(Str("Post 1"))
  {
    var t, r := "title", "rendered";
    assert titlePath == t + "." + r;
    GetValueTwoKeys(post, t, r);
  }

  /** `items.map(item => row)`: one row per item, in item order. */
  function BuildRows(items: seq<Json>, fields: seq<string>): (rows: seq<Row>)
    ensures RowsOf(items, fields, rows)
  {
    if |items| == 0 then []
    else [BuildRow(items[0], fields)] + BuildRows(items[1..], fields)
  }

  /** The `json2csv` parser, a function of the rows and the column list;
      it either yields CSV text or throws. */
  type Serialiser = (seq<Row>, seq<string>) -> Result<string, Thrown>

  const ParseFailurePrefix: string := "CSV parsing failed: "

  /** `toCSV(items, fields)`: empty text for no items (not even a header
      line); otherwise what the serialiser makes of the items' rows, with
      a thrown `Error` re-signalled under the prefix "CSV parsing failed: ". */
  function ToCsv(items: seq<Json>, fields: seq<string>, serialise: Serialiser): (r: Result<string, Thrown>)
    ensures |items| == 0 ==> r == Success("")
    ensures |items| > 0 && r.Success? ==>
              exists rows :: RowsOf(items, fields, rows) && serialise(rows, fields) == r
    ensures |items| > 0 && r.Failure? ==>
              exists rows :: && RowsOf(items, fields, rows)
                             && serialise(rows, fields).Failure?
                             && r.error == Wrap(ParseFailurePrefix, serialise(rows, fields).error)
  {
    if |items| == 0 then Success("")
    else
      var rows := BuildRows(items, fields);
      match serialise(rows, fields)
      case Success(text) => Success(text)
      case Failure(e) => Failure(Wrap(ParseFailurePrefix, e))
  }
}
