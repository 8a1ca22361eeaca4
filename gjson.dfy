/** A small stand-in for the gjson library: a JSON document without arrays,
    gjson's path syntax (a `.` descends one object level, `\` makes the next
    byte literal), and `Get`, which yields the addressed value's string form
    when it exists. */
module Gjson {
  import opened Wrappers
  import opened GoStrings

  datatype Json =
    | Null
    | Bool(b: bool)
    | Number(raw: Bytes)
    | Str(s: Bytes)
    | Object(members: seq<Member>)

  datatype Member = Member(key: Bytes, value: Json)

  /** The keys a path descends through, one per unescaped `.`-separated
      component. */
  function Components(path: Bytes): (keys: seq<Bytes>)
  {
    Split(path, [])
  }

  /** Splits `path` while `current` holds the key read so far. */
  function Split(path: Bytes, current: Bytes): (keys: seq<Bytes>)
    decreases |path|
  {
    if path == [] then [current]
    else if path[0] == '\\' && |path| >= 2 then Split(path[2..], current + [path[1]])
    else if path[0] == '.' then [current] + Split(path[1..], [])
    else Split(path[1..], current + [path[0]])
  }

  /** The value of the first member named `key`. */
  function Field(members: seq<Member>, key: Bytes): (r: Option<Json>)
    ensures r.Some? <==> exists i :: 0 <= i < |members| && members[i].key == key
    ensures r.Some? ==> exists i :: 0 <= i < |members| && members[i] == Member(key, r.value)
  {
    if members == [] then None
    else if members[0].key == key then Some(members[0].value)
    else
      var r := Field(members[1..], key);
      assert forall i :: 0 < i < |members| ==> members[i] == members[1..][i - 1];
      r
  }

  /** Descends through `keys`, one object level per key. */
  function Descend(doc: Json, keys: seq<Bytes>): Option<Json>
    decreases |keys|
  {
    if keys == [] then Some(doc)
    else match doc
      case Object(members) =>
        (match Field(members, keys[0])
         case None => None
         case Some(child) => Descend(child, keys[1..]))
      case _ => None
  }

  /** Compact JSON text of a value (string contents are not escaped). */
  function Render(v: Json): Bytes
    decreases v, if v.Object? then |v.members| + 1 else 0
  {
    match v
    case Null => "null"
    case Bool(b) => if b then "true" else "false"
    case Number(raw) => raw
    case Str(s) => "\"" + s + "\""
    case Object(members) => "{" + RenderMembers(v, 0) + "}"
  }

  function RenderMembers(v: Json, i: nat): Bytes
    requires v.Object? && i <= |v.members|
    decreases v, |v.members| - i
  {
    if i == |v.members| then []
    else
      (if i == 0 then [] else ",") + "\"" + v.members[i].key + "\":" + Render(v.members[i].value)
      + RenderMembers(v, i + 1)
  }

  /** gjson's `Result.String()`: a string is its contents, null is empty,
      anything else is its JSON text. */
  function StringForm(v: Json): Bytes
  {
    match v
    case Null => []
    case Str(s) => s
    case _ => Render(v)
  }

  /** `gjson.Get(payload, path)` on the document `doc` that `payload` parses
      to: the string form of the addressed value, or `None` when it does not
      exist. A path without dots or backslashes reads one top-level member. */
  function Get(doc: Json, path: Bytes): (r: Option<Bytes>)
    ensures '.' !in path && '\\' !in path ==> r == TopLevel(doc, path)
  {
    if '.' !in path && '\\' !in path then
      SplitPlain(path, []);
      assert [] + path == path;
      OneKeyDescent(doc, path);
      StringFormOf(Descend(doc, Components(path)))
    else
      StringFormOf(Descend(doc, Components(path)))
  }

  /** The string form of a value that may not exist. */
  function StringFormOf(v: Option<Json>): Option<Bytes>
  {
    match v
    case None => None
    case Some(v) => Some(StringForm(v))
  }

  /** A path without dots or backslashes is one key. */
  lemma {:induction false} SplitPlain(key: Bytes, current: Bytes)
    requires '.' !in key && '\\' !in key
    ensures Split(key, current) == [current + key]
    decreases |key|
  {
    if key == [] {
      assert current + key == current;
    } else {
      assert '.' !in key[1..] && '\\' !in key[1..];
      SplitPlain(key[1..], current + [key[0]]);
      assert current + [key[0]] + key[1..] == current + key;
    }
  }

  /** An unescaped dot ends the key read so far and starts the next one. */
  lemma {:induction false} SplitAtDot(key: Bytes, rest: Bytes, current: Bytes)
    requires '.' !in key && '\\' !in key
    ensures Split(key + ['.'] + rest, current) == [current + key] + Split(rest, [])
    decreases |key|
  {
    if key == [] {
      assert key + ['.'] + rest == ['.'] + rest;
      assert (['.'] + rest)[1..] == rest;
      assert current + key == current;
    } else {
      assert '.' !in key[1..] && '\\' !in key[1..];
      assert (key + ['.'] + rest)[1..] == key[1..] + ['.'] + rest;
      SplitAtDot(key[1..], rest, current + [key[0]]);
      assert current + [key[0]] + key[1..] == current + key;
    }
  }

  /** Escaping every `.` of a backslash-free key yields a path that names
      that key alone, as one component. */
  lemma {:induction false} SplitEscaped(key: Bytes, current: Bytes)
    requires '\\' !in key
    ensures Split(ReplaceAll(key, '.', "\\."), current) == [current + key]
    decreases |key|
  {
    if key == [] {
      assert current + key == current;
    } else {
      var rest := ReplaceAll(key[1..], '.', "\\.");
      assert '\\' !in key[1..];
      if key[0] == '.' {
        assert ReplaceAll(key, '.', "\\.") == ['\\', '.'] + rest;
        SplitEscaped(key[1..], current + ['.']);
        assert current + ['.'] + key[1..] == current + key;
      } else {
        assert ReplaceAll(key, '.', "\\.") == [key[0]] + rest;
        SplitEscaped(key[1..], current + [key[0]]);
        assert current + [key[0]] + key[1..] == current + key;
      }
    }
  }

  lemma EscapedPathIsOneKey(key: Bytes)
    requires '\\' !in key
    ensures Components(ReplaceAll(key, '.', "\\.")) == [key]
  {
    SplitEscaped(key, []);
    assert [] + key == key;
  }

  /** The string form of member `key` of a top-level object, if any. */
  function TopLevel(doc: Json, key: Bytes): Option<Bytes>
  {
    if !doc.Object? then None
    else match Field(doc.members, key)
      case None => None
      case Some(v) => Some(StringForm(v))
  }

  /** Looking up the escaped form of a backslash-free key reads that key of
      the top-level object, whatever dots it contains. */
  lemma EscapedLookupIsTopLevel(doc: Json, key: Bytes)
    requires '\\' !in key
    ensures Get(doc, ReplaceAll(key, '.', "\\.")) == TopLevel(doc, key)
  {
    EscapedPathIsOneKey(key);
    OneKeyDescent(doc, key);
  }

  /** Descending through one key reads that member of a top-level object. */
  lemma OneKeyDescent(doc: Json, key: Bytes)
    ensures StringFormOf(Descend(doc, [key])) == TopLevel(doc, key)
  {
    if doc.Object? {
      match Field(doc.members, key)
      case None =>
      case Some(child) =>
        assert [key][1..] == [];
        assert Descend(doc, [key]) == Descend(child, []);
    }
  }
}
