/**
  The already-parsed, already-resolved API description the comparator reads. Every
  dictionary of the description is a sequence of (key, value) entries in the order the
  document lists them, because that order fixes the order of the messages.
 */
module OpenApi {
  import opened Strings

  datatype Option<T> = None | Some(value: T)

  /** The operation keys of a path item. */
  datatype Verb = Get | Put | Post | Delete | Options | Head | Patch | Trace

  /** The display name the description library attaches to each verb. */
  function DisplayName(v: Verb): (r: string)
    ensures |r| > 0 && forall i :: 0 <= i < |r| ==> 'a' <= r[i] <= 'z'
  {
    match v
    case Get => "get"
    case Put => "put"
    case Post => "post"
    case Delete => "delete"
    case Options => "options"
    case Head => "head"
    case Patch => "patch"
    case Trace => "trace"
  }

  /** Distinct verbs have distinct display names, so the allow-list keys tell them apart. */
  lemma DisplayNameInjective(v: Verb, w: Verb)
    requires DisplayName(v) == DisplayName(w)
    ensures v == w
  {
    assert DisplayName(v)[0] == DisplayName(w)[0];
    assert |DisplayName(v)| == |DisplayName(w)|;
  }

  datatype Parameter = Parameter(name: string)

  /**
    A schema. An absent type (null in the library) is the empty string; `items` is absent
    unless the document gives one; `referenceId` is the id of the reference the schema was
    resolved from, if any.
   */
  datatype Schema = Schema(
    typeName: string,
    items: Option<Schema>,
    properties: Properties,
    title: Option<string>,
    referenceId: Option<string>)

  /** The property dictionary of a schema. */
  datatype Properties = Properties(entries: seq<(string, Schema)>)

  /** A media type; its schema may be absent. */
  datatype MediaType = MediaType(schema: Option<Schema>)

  datatype RequestBody = RequestBody(content: seq<(string, MediaType)>)

  datatype Response = Response(content: seq<(string, MediaType)>)

  datatype Operation = Operation(
    parameters: seq<Parameter>,
    requestBody: Option<RequestBody>,
    responses: Option<seq<(string, Response)>>)

  datatype PathItem = PathItem(operations: seq<(Verb, Operation)>, parameters: seq<Parameter>)

  datatype Document = Document(paths: seq<(string, PathItem)>)

  /** Keys of a dictionary are distinct. */
  predicate UniqueKeys<K(==), V>(entries: seq<(K, V)>)
  {
    forall i, j :: 0 <= i < j < |entries| ==> entries[i].0 != entries[j].0
  }

  /** `TryGetValue`: the value stored under exactly this key (the first such entry). */
  function Lookup<K(==), V>(entries: seq<(K, V)>, key: K): (r: Option<V>)
    ensures r.None? <==> forall i :: 0 <= i < |entries| ==> entries[i].0 != key
    ensures r.Some? ==> (key, r.value) in entries
  {
    if |entries| == 0 then None
    else if entries[0].0 == key then Some(entries[0].1)
    else Lookup(entries[1..], key)
  }

  /**
    `inputPaths.Keys.First(x => x.ToLower() == lowerPath)`, as an index: the first entry whose
    lower-cased key is `lowerPath`, or None when `Keys.Select(ToLower).Contains` is false.
   */
  function FirstMatchingPath(paths: seq<(string, PathItem)>, lowerPath: string): (r: Option<nat>)
    ensures r.None? <==> forall j :: 0 <= j < |paths| ==> Lower(paths[j].0) != lowerPath
    ensures r.Some? ==> r.value < |paths| && Lower(paths[r.value].0) == lowerPath
    ensures r.Some? ==> forall j :: 0 <= j < r.value ==> Lower(paths[j].0) != lowerPath
  {
    if |paths| == 0 then None
    else if Lower(paths[0].0) == lowerPath then Some(0)
    else match FirstMatchingPath(paths[1..], lowerPath)
      case None => None
      case Some(k) => Some(k + 1)
  }

  /** `FirstOrDefault(x => x.Name.ToLower() == lowerName)` */
  function FindParameter(parameters: seq<Parameter>, lowerName: string): (r: Option<Parameter>)
    ensures r.None? <==> forall j :: 0 <= j < |parameters| ==> Lower(parameters[j].name) != lowerName
    ensures r.Some? ==> r.value in parameters && Lower(r.value.name) == lowerName
  {
    if |parameters| == 0 then None
    else if Lower(parameters[0].name) == lowerName then Some(parameters[0])
    else FindParameter(parameters[1..], lowerName)
  }

  /** With distinct keys, the lookup of an entry's key finds that entry. */
  lemma {:induction false} LookupUnique<K, V>(entries: seq<(K, V)>, i: nat)
    requires UniqueKeys(entries) && i < |entries|
    ensures Lookup(entries, entries[i].0) == Some(entries[i].1)
  {
    if i > 0 {
      assert entries[0].0 != entries[i].0;
      assert entries[1..][i - 1] == entries[i];
      LookupUnique(entries[1..], i - 1);
    }
  }

  /** Entries without the key, put in front, do not change the lookup. */
  lemma {:induction false} PrefixLookup<K, V>(extra: seq<(K, V)>, entries: seq<(K, V)>, key: K)
    requires forall e :: 0 <= e < |extra| ==> extra[e].0 != key
    ensures Lookup(extra + entries, key) == Lookup(entries, key)
  {
    if |extra| > 0 {
      assert (extra + entries)[0] == extra[0];
      assert (extra + entries)[1..] == extra[1..] + entries;
      PrefixLookup(extra[1..], entries, key);
    } else {
      assert extra + entries == entries;
    }
  }

  /** Entries without the key, inserted anywhere, do not change the lookup. */
  lemma {:induction false} InsertedLookup<K, V>(entries: seq<(K, V)>, i: nat, extra: seq<(K, V)>, key: K)
    requires i <= |entries|
    requires forall e :: 0 <= e < |extra| ==> extra[e].0 != key
    ensures Lookup(entries[..i] + extra + entries[i..], key) == Lookup(entries, key)
  {
    var extended := entries[..i] + extra + entries[i..];
    if i == 0 {
      assert extended == extra + entries;
      PrefixLookup(extra, entries, key);
    } else {
      assert extended[0] == entries[0];
      var tail := entries[1..];
      assert extended[1..] == tail[..i - 1] + extra + tail[i - 1..];
      InsertedLookup(tail, i - 1, extra, key);
    }
  }
}
