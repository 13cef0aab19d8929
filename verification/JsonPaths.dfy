/** Finding and reading chartable fields of a JSON payload (internal/api/topic_history.go). */
module JsonPaths {
  import opened Collections
  import opened Levels

  datatype Json =
    | Null
    | Bool(b: bool)
    | Number(n: real)
    | Text(s: string)
    | Array(items: seq<Json>)
    | Object(fields: map<string, Json>)

  /** A payload as text and, when it is JSON, as a document. */
  datatype Payload = Payload(text: string, doc: Option<Json>)

  /** Reading a number, or one of the on/off spellings, out of text. */
  type Parser = string -> Option<real>

  const MAX_DEPTH := 6

  /** The number a single JSON value charts as, if any. */
  function Chartable(j: Json, parse: Parser): Option<real> {
    match j
    case Number(n) => Some(n)
    case Bool(b) => Some(if b then 1.0 else 0.0)
    case Text(s) => parse(s)
    case _ => None
  }

  /** What a sequence of keys leads to. */
  function ValueAt(j: Json, keys: seq<string>, parse: Parser): Option<real>
    decreases |keys|
  {
    if keys == [] then Chartable(j, parse)
    else if j.Object? && keys[0] in j.fields then ValueAt(j.fields[keys[0]], keys[1..], parse)
    else None
  }

  /** The documents met on the way down some keys. */
  ghost predicate LeadsDown(j: Json, keys: seq<string>, docs: seq<Json>) {
    && |docs| == |keys| + 1 && docs[0] == j
    && forall i :: 0 <= i < |keys| ==>
      docs[i].Object? && keys[i] in docs[i].fields && docs[i].fields[keys[i]] == docs[i + 1]
  }

  /** What a document charts as: a number as itself, a flag as one or zero, a text as it is read, the rest not. */
  ghost predicate ChartsAs(j: Json, parse: Parser, v: Option<real>) {
    && (j.Number? ==> v == Some(j.n))
    && (j == Bool(true) ==> v == Some(1.0))
    && (j == Bool(false) ==> v == Some(0.0))
    && (j.Text? ==> v == parse(j.s))
    && (j.Null? || j.Array? || j.Object? ==> v == None)
  }

  /** What is read at some keys is what the document they lead to charts as. */
  lemma {:induction false} ReadsWhereKeysLead(j: Json, keys: seq<string>, docs: seq<Json>, parse: Parser)
    requires LeadsDown(j, keys, docs)
    ensures ChartsAs(docs[|keys|], parse, ValueAt(j, keys, parse))
    decreases |keys|
  {
    if keys != [] {
      assert forall i :: 0 <= i < |keys| - 1 ==> keys[1..][i] == keys[i + 1] && docs[1..][i] == docs[i + 1];
      ReadsWhereKeysLead(docs[1], keys[1..], docs[1..], parse);
    }
  }

  /** And nothing is read where they lead nowhere. */
  lemma {:induction false} ReadsNothingElse(j: Json, keys: seq<string>, parse: Parser) returns (docs: seq<Json>)
    requires ValueAt(j, keys, parse).Some?
    ensures LeadsDown(j, keys, docs)
    decreases |keys|
  {
    if keys == [] {
      docs := [j];
    } else {
      var rest := ReadsNothingElse(j.fields[keys[0]], keys[1..], parse);
      docs := [j] + rest;
    }
  }

  /** The number at a dotted path, if any; the empty path is the payload itself. */
  function FieldOf(p: Payload, field: string, parse: Parser): Option<real> {
    if field == "" then parse(p.text)
    else if p.doc.None? then None
    else ValueAt(p.doc.value, Split(field, '.'), parse)
  }

  /** Reads it, segment by segment. */
  method NumericAt(p: Payload, field: string, parse: Parser) returns (v: Option<real>)
    ensures v == FieldOf(p, field, parse)
  {
    if field == "" { return parse(p.text); }
    if p.doc.None? { return None; }
    var doc := p.doc.value;
    var keys := Split(field, '.');
    for i := 0 to |keys|
      invariant ValueAt(p.doc.value, keys, parse) == ValueAt(doc, keys[i..], parse)
    {
      assert keys[i..][1..] == keys[i + 1..];
      if !doc.Object? || keys[i] !in doc.fields { return None; }
      doc := doc.fields[keys[i]];
    }
    return Chartable(doc, parse);
  }

  function Extend(prefix: string, key: string): string {
    if prefix != "" then prefix + "." + key else key
  }

  function PathFrom(prefix: string, keys: seq<string>): string
    decreases |keys|
  {
    if keys == [] then prefix else PathFrom(Extend(prefix, keys[0]), keys[1..])
  }

  /** Some keys, at most `most` of them, lead from the value to a number and spell the path. */
  ghost predicate Leads(prefix: string, j: Json, path: string, most: int, parse: Parser) {
    exists keys: seq<string> {:trigger ValueAt(j, keys, parse)} ::
      1 <= |keys| <= most && ValueAt(j, keys, parse).Some? && path == PathFrom(prefix, keys)
  }

  /** Records the path of every number found below a value, going into objects only. */
  method WalkNumericPaths(prefix: string, j: Json, into: set<string>, depth: nat, parse: Parser)
    returns (out: set<string>)
    requires depth <= MAX_DEPTH + 1
    ensures forall path :: path in out <==> path in into || Leads(prefix, j, path, MAX_DEPTH + 1 - depth, parse)
    decreases MAX_DEPTH + 1 - depth
  {
    out := into;
    if depth > MAX_DEPTH { return; }
    if !j.Object? { return; }
    var todo := j.fields.Keys;
    ghost var done := {};
    while todo != {}
      invariant todo !! done && todo + done == j.fields.Keys
      invariant forall path :: path in out <==>
        path in into || exists k :: k in done && LeadsVia(prefix, j, k, path, depth, parse)
    {
      var key :| key in todo;
      ghost var before := out;
      var path := Extend(prefix, key);
      match j.fields[key] {
        case Object(_) => out := WalkNumericPaths(path, j.fields[key], out, depth + 1, parse);
        case Number(_) => out := out + {path};
        case Bool(_) => out := out + {path};
        case Text(s) => if parse(s).Some? { out := out + {path}; }
        case _ =>
      }
      forall q ensures q in out <==> q in before || LeadsVia(prefix, j, key, q, depth, parse) {
        LeafOrBranch(path, j.fields[key], q, MAX_DEPTH - depth, parse);
      }
      todo, done := todo - {key}, done + {key};
    }
    forall path ensures path in out <==> path in into || Leads(prefix, j, path, MAX_DEPTH + 1 - depth, parse) {
      LeadsIsVia(prefix, j, path, depth, parse);
    }
  }

  /** The keys that spell the path start with `key`. */
  ghost predicate LeadsVia(prefix: string, j: Json, key: string, path: string, depth: nat, parse: Parser)
    requires depth <= MAX_DEPTH
  {
    j.Object? && key in j.fields && At(Extend(prefix, key), j.fields[key], path, MAX_DEPTH - depth, parse)
  }

  /** At most `most` keys, perhaps none, lead from the value to a number and spell the path. */
  ghost predicate At(prefix: string, j: Json, path: string, most: int, parse: Parser) {
    exists keys: seq<string> {:trigger ValueAt(j, keys, parse)} ::
      |keys| <= most && ValueAt(j, keys, parse).Some? && path == PathFrom(prefix, keys)
  }

  lemma LeafOrBranch(prefix: string, j: Json, path: string, most: nat, parse: Parser)
    ensures At(prefix, j, path, most, parse) <==>
      if j.Object? then Leads(prefix, j, path, most, parse) else Chartable(j, parse).Some? && path == prefix
  {
    assert ValueAt(j, [], parse) == Chartable(j, parse);
    if At(prefix, j, path, most, parse) {
      var keys: seq<string> :| |keys| <= most && ValueAt(j, keys, parse).Some? && path == PathFrom(prefix, keys);
      if keys == [] {
      } else {
        assert j.Object?;
      }
    }
  }

  lemma LeadsIsVia(prefix: string, j: Json, path: string, depth: nat, parse: Parser)
    requires depth <= MAX_DEPTH && j.Object?
    ensures Leads(prefix, j, path, MAX_DEPTH + 1 - depth, parse) <==>
      exists k :: k in j.fields && LeadsVia(prefix, j, k, path, depth, parse)
  {
    if Leads(prefix, j, path, MAX_DEPTH + 1 - depth, parse) {
      var keys: seq<string> :| 1 <= |keys| <= MAX_DEPTH + 1 - depth && ValueAt(j, keys, parse).Some? &&
        path == PathFrom(prefix, keys);
      assert ValueAt(j.fields[keys[0]], keys[1..], parse).Some?;
      assert LeadsVia(prefix, j, keys[0], path, depth, parse);
    }
    if k :| k in j.fields && LeadsVia(prefix, j, k, path, depth, parse) {
      var keys: seq<string> :| |keys| <= MAX_DEPTH - depth && ValueAt(j.fields[k], keys, parse).Some?
                               && path == PathFrom(Extend(prefix, k), keys);
      assert ([k] + keys)[1..] == keys;
      assert ValueAt(j, [k] + keys, parse).Some?;
    }
  }

  /** The paths the field chooser offers for a payload. */
  method CollectNumericPaths(p: Payload, into: set<string>, parse: Parser) returns (out: set<string>)
    ensures forall path :: path in out <==> path in into || Offers(p, path, parse)
  {
    if parse(p.text).Some? { return into + {""}; }
    if p.doc.None? { return into; }
    out := WalkNumericPaths("", p.doc.value, into, 0, parse);
  }

  ghost predicate Offers(p: Payload, path: string, parse: Parser) {
    if parse(p.text).Some? then path == ""
    else p.doc.Some? && Leads("", p.doc.value, path, MAX_DEPTH + 1, parse)
  }

  /** Keys a dotted path can spell. */
  predicate PlainKey(k: string) {
    k != "" && '.' !in k
  }

  /** Every key met on the way to a number is plain. */
  ghost predicate PlainKeys(j: Json, parse: Parser) {
    forall keys: seq<string> {:trigger ValueAt(j, keys, parse)} :: ValueAt(j, keys, parse).Some? ==>
      forall i :: 0 <= i < |keys| ==> PlainKey(keys[i])
  }

  lemma {:induction false} PathIsJoin(prefix: string, keys: seq<string>)
    requires |keys| >= 1 && forall i :: 0 <= i < |keys| ==> PlainKey(keys[i])
    ensures PathFrom(prefix, keys) == if prefix == "" then Join(keys, '.') else prefix + "." + Join(keys, '.')
    decreases |keys|
  {
    if |keys| == 1 {
      assert keys[1..] == [];
    } else {
      PathIsJoin(Extend(prefix, keys[0]), keys[1..]);
    }
  }

  /** For any payload, a path is offered exactly when reading it succeeds and it has at most seven segments. */
  lemma OfferedIsReadable(p: Payload, path: string, parse: Parser)
    requires p.doc.Some? ==> PlainKeys(p.doc.value, parse)
    requires p.doc.Some? && p.doc.value.Object? ==> parse(p.text).None?
    ensures Offers(p, path, parse) <==>
      FieldOf(p, path, parse).Some? && (path == "" || |Split(path, '.')| <= 7)
  {
    if p.doc.Some? && p.doc.value.Object? {
      if path == "" { EmptyPathNotOffered(p, parse); } else { ObjectPaths(p, path, parse); }
    } else if p.doc.Some? {
      forall keys | ValueAt(p.doc.value, keys, parse).Some? ensures keys == [] {}
    }
  }

  lemma ObjectPaths(p: Payload, path: string, parse: Parser)
    requires p.doc.Some? && p.doc.value.Object? && parse(p.text).None?
    requires PlainKeys(p.doc.value, parse)
    requires path != ""
    ensures Offers(p, path, parse) <==>
      |Split(path, '.')| <= MAX_DEPTH + 1 && ValueAt(p.doc.value, Split(path, '.'), parse).Some?
  {
    var doc := p.doc.value;
    if Offers(p, path, parse) {
      var keys: seq<string> :| 1 <= |keys| <= MAX_DEPTH + 1 && ValueAt(doc, keys, parse).Some? &&
        path == PathFrom("", keys);
      PathIsJoin("", keys);
      SplitJoin(keys, '.');
    }
    var parts := Split(path, '.');
    if |parts| <= MAX_DEPTH + 1 && ValueAt(doc, parts, parse).Some? {
      PathIsJoin("", parts);
      JoinSplit(path, '.');
    }
  }

  /** For an object the empty path is never offered, as nothing can be read there. */
  lemma EmptyPathNotOffered(p: Payload, parse: Parser)
    requires p.doc.Some? && p.doc.value.Object? && parse(p.text).None?
    requires PlainKeys(p.doc.value, parse)
    ensures !Offers(p, "", parse)
  {
    if Offers(p, "", parse) {
      var keys: seq<string> :| 1 <= |keys| <= MAX_DEPTH + 1 && ValueAt(p.doc.value, keys, parse).Some? &&
        "" == PathFrom("", keys);
      PathIsJoin("", keys);
    }
  }
}
