/**
  The walk of the comparator, as values: for every step of the traversal of the reference
  description (the "doc"), the messages it records against the implementation description
  (the "input"). Each function here is the specification of one method of
  `SpecificationComparator`; the methods are proved to append exactly these messages.
 */
module Traversal {
  import opened Strings
  import opened OpenApi
  import opened Report

  const JsonApplication := "application/json"

  const EmptyDocWarning := "Doc paths is empty"

  const CombinatorNotice := " can not be parsed as AnyOf, OneOf, AllOf is not supported"

  /** The allow-list decides whether a missing path or operation is a warning or an error. */
  function Classify(notImplemented: set<string>, key: string, message: string): (r: Trail)
    ensures r.warnings == (if key in notImplemented then [message] else [])
    ensures r.errors == (if key in notImplemented then [] else [message])
    ensures !r.threw
  {
    if key in notImplemented then Warn(message) else Fail(message)
  }

  /** The display form of a verb in messages: `GetDisplayName().ToUpper()`. */
  function VerbDisplay(v: Verb): (r: string)
    ensures Lower(r) == DisplayName(v)
    ensures |r| == |DisplayName(v)| && forall i :: 0 <= i < |r| ==> 'A' <= r[i] <= 'Z'
  {
    LowerOfUpperLetters(DisplayName(v));
    Upper(DisplayName(v))
  }

  // ---------------------------------------------------------------- schemas

  /** An input type satisfies a declared type if it is the same, or an integer where a number is declared. */
  predicate TypeCompatible(inputType: string, docType: string)
    ensures inputType == docType ==> TypeCompatible(inputType, docType)
    ensures TypeCompatible(inputType, docType) && inputType != docType ==> docType == "number" && inputType == "integer"
  {
    inputType == docType || (docType == "number" && inputType == "integer")
  }

  function TypeMismatch(path: string, inputType: string, docType: string): string
  {
    path + ": has invalid " + inputType + " type. Expected: " + docType
  }

  /** `CompareTypes`: an empty declared type never raises an error. */
  function TypeTrail(path: string, inputType: string, docType: string): (r: Trail)
    ensures r.warnings == [] && !r.threw
    ensures r.errors == [] <==> docType == "" || TypeCompatible(inputType, docType)
    ensures r.errors != [] ==> r.errors == [TypeMismatch(path, inputType, docType)]
  {
    if docType == "" then Nothing
    else if TypeCompatible(inputType, docType) then Nothing
    else Fail(TypeMismatch(path, inputType, docType))
  }

  /** `docSchema.Title ?? docSchema.Reference?.Id` */
  function SchemaTitle(doc: Schema): (r: Option<string>)
    ensures doc.title.Some? ==> r == doc.title
    ensures doc.title.None? ==> r == doc.referenceId
  {
    if doc.title.Some? then doc.title else doc.referenceId
  }

  /** The scope under which an object's properties are reported: the path, or the path and the title. */
  function ObjectScope(path: string, doc: Schema): (r: string)
    ensures r == path <==> SchemaTitle(doc).None? || SchemaTitle(doc).value == ""
    ensures r != path ==> r == path + " -> " + SchemaTitle(doc).value
  {
    match SchemaTitle(doc)
    case Some(title) => if title != "" then path + " -> " + title else path
    case None => path
  }

  /**
    How `??` picks the scope: a title wins, even an empty one, which then hides the reference
    id; without a title the reference id is used; an empty or absent name leaves the path.
   */
  lemma ObjectScopeCases(path: string, doc: Schema)
    ensures doc.title.Some? && doc.title.value != "" ==> ObjectScope(path, doc) == path + " -> " + doc.title.value
    ensures doc.title == Some("") ==> ObjectScope(path, doc) == path
    ensures doc.title.None? && doc.referenceId.Some? && doc.referenceId.value != ""
         ==> ObjectScope(path, doc) == path + " -> " + doc.referenceId.value
    ensures doc.title.None? && (doc.referenceId.None? || doc.referenceId == Some("")) ==> ObjectScope(path, doc) == path
  {
  }

  /** `CompareSchemas` */
  function SchemaTrail(path: string, input: Schema, doc: Schema): Trail
    decreases doc, 0
  {
    var typed := TypeTrail(path, input.typeName, doc.typeName);
    var noticed := if doc.typeName == "" then Then(typed, Warn(path + CombinatorNotice)) else typed;
    if doc.typeName == "array" then
      if input.items.None? || doc.items.None? then Then(noticed, Thrown)
      else Then(noticed, SchemaTrail(path + " -> array", input.items.value, doc.items.value))
    else if doc.typeName == "object" then
      Then(noticed, PropertiesTrail(ObjectScope(path, doc), input.properties, doc.properties))
    else noticed
  }

  /** One iteration of `CompareProperties`: properties are looked up by exact name. */
  function PropertyStep(path: string, input: Properties, name: string, doc: Schema): Trail
    decreases doc, 1
  {
    match Lookup(input.entries, name)
    case None => Fail("Missing " + path + " property: " + name)
    case Some(inputSchema) => SchemaTrail(path + " -> " + name, inputSchema, doc)
  }

  function PropertySteps(path: string, input: Properties, doc: Properties): (r: seq<Trail>)
    ensures |r| == |doc.entries|
    decreases doc, 0
  {
    seq(|doc.entries|, k requires 0 <= k < |doc.entries| =>
      PropertyStep(path, input, doc.entries[k].0, doc.entries[k].1))
  }

  /** `CompareProperties` */
  function PropertiesTrail(path: string, input: Properties, doc: Properties): Trail
    decreases doc, 1
  {
    Fold(PropertySteps(path, input, doc))
  }

  // ---------------------------------------------------------------- contents

  /**
    `CompareContents`: only the JSON media type is compared; a JSON media type without a
    schema makes `CompareSchemas` dereference null.
   */
  function ContentTrail(path: string, input: seq<(string, MediaType)>, doc: seq<(string, MediaType)>): Trail
  {
    match Lookup(doc, JsonApplication)
    case None => Nothing
    case Some(docMedia) =>
      match Lookup(input, JsonApplication)
      case None => Fail("Missing " + JsonApplication + " mediatype for " + path)
      case Some(inputMedia) =>
        if inputMedia.schema.None? || docMedia.schema.None? then Thrown
        else SchemaTrail(path, inputMedia.schema.value, docMedia.schema.value)
  }

  /** `CompareRequestBodies` */
  function BodyTrail(path: string, input: RequestBody, doc: RequestBody): Trail
  {
    ContentTrail(path + " body", input.content, doc.content)
  }

  /** One iteration of `CompareResponses`: codes not starting with "2" are skipped. */
  function ResponseStep(path: string, input: seq<(string, Response)>, code: string, doc: Response): Trail
  {
    if !StartsWith(code, "2") then Nothing
    else match Lookup(input, code)
      case None => Fail("Missing " + path + " response: " + code)
      case Some(inputResponse) => ContentTrail(path + " " + code, inputResponse.content, doc.content)
  }

  function ResponseSteps(path: string, input: seq<(string, Response)>, doc: seq<(string, Response)>): (r: seq<Trail>)
    ensures |r| == |doc|
  {
    seq(|doc|, k requires 0 <= k < |doc| => ResponseStep(path, input, doc[k].0, doc[k].1))
  }

  /** `CompareResponses` */
  function ResponsesTrail(path: string, input: seq<(string, Response)>, doc: seq<(string, Response)>): Trail
  {
    Fold(ResponseSteps(path, input, doc))
  }

  // ---------------------------------------------------------------- parameters

  function MissingParameter(path: string, name: string): string
  {
    "Missing " + path + " param: " + name
  }

  /** One iteration of `CompareParameters`: names are matched case-insensitively. */
  function ParameterStep(path: string, input: seq<Parameter>, doc: Parameter): Trail
  {
    if FindParameter(input, Lower(doc.name)).None? then Fail(MissingParameter(path, doc.name)) else Nothing
  }

  function ParameterSteps(path: string, input: seq<Parameter>, doc: seq<Parameter>): (r: seq<Trail>)
    ensures |r| == |doc|
  {
    seq(|doc|, k requires 0 <= k < |doc| => ParameterStep(path, input, doc[k]))
  }

  /** `CompareParameters`: a parameter check only ever records errors. */
  function ParametersTrail(path: string, input: seq<Parameter>, doc: seq<Parameter>): (r: Trail)
    ensures r.warnings == [] && !r.threw
  {
    var steps := ParameterSteps(path, input, doc);
    FoldOfErrors(steps);
    Fold(steps)
  }

  // ---------------------------------------------------------------- operations

  /**
    One iteration of `CompareOperations`. A doc verb the input path lacks is classified by
    the key "<verb in lower case> <path as written>".
   */
  function OperationStep(
    notImplemented: set<string>, path: string, input: seq<(Verb, Operation)>,
    verb: Verb, doc: Operation, pathParams: seq<Parameter>): Trail
  {
    var typeDisplay := VerbDisplay(verb);
    match Lookup(input, verb)
    case None =>
      Classify(notImplemented, Lower(typeDisplay) + " " + path, "Missing " + path + " operation: " + typeDisplay)
    case Some(inputOp) => MatchedOperationTrail(typeDisplay + " " + path, inputOp, doc, pathParams)
  }

  /**
    The rest of the iteration for a verb both sides have. The doc operation's parameters, then
    the doc path's parameters, are looked for among the input operation's own parameters. A
    missing request body ends the iteration, so responses are then not compared.
   */
  function MatchedOperationTrail(operationPath: string, input: Operation, doc: Operation, pathParams: seq<Parameter>): Trail
  {
    var params := ParametersTrail(operationPath, input.parameters, doc.parameters + pathParams);
    if doc.requestBody.Some? && input.requestBody.None? then
      Then(params, Fail("Missing " + operationPath + ": requestBody"))
    else
      Then(params, Then(BodyPart(operationPath, input, doc), ResponsesPart(operationPath, input, doc)))
  }

  /** The request body comparison of an operation whose input has a body wherever the doc has one. */
  function BodyPart(operationPath: string, input: Operation, doc: Operation): Trail
  {
    if doc.requestBody.Some? && input.requestBody.Some? then
      BodyTrail(operationPath, input.requestBody.value, doc.requestBody.value)
    else Nothing
  }

  /** The responses comparison of an operation. */
  function ResponsesPart(operationPath: string, input: Operation, doc: Operation): Trail
  {
    if doc.responses.None? then Nothing
    else if input.responses.None? then Fail("Missing " + operationPath + ": responses")
    else ResponsesTrail(operationPath + " responses", input.responses.value, doc.responses.value)
  }

  function OperationSteps(
    notImplemented: set<string>, path: string, input: seq<(Verb, Operation)>,
    doc: seq<(Verb, Operation)>, pathParams: seq<Parameter>): (r: seq<Trail>)
    ensures |r| == |doc|
  {
    seq(|doc|, k requires 0 <= k < |doc| => OperationStep(notImplemented, path, input, doc[k].0, doc[k].1, pathParams))
  }

  /** `CompareOperations` */
  function OperationsTrail(
    notImplemented: set<string>, path: string, input: seq<(Verb, Operation)>,
    doc: seq<(Verb, Operation)>, pathParams: seq<Parameter>): Trail
  {
    Fold(OperationSteps(notImplemented, path, input, doc, pathParams))
  }

  // ---------------------------------------------------------------- paths

  /**
    One iteration of `ComparePaths`. The allow-list is first asked for the lower-cased path,
    whatever the input holds; a path without a case-insensitive match is then classified by
    the path as written.
   */
  function PathStep(notImplemented: set<string>, input: seq<(string, PathItem)>, path: string, doc: PathItem): Trail
  {
    var lowerPath := Lower(path);
    if lowerPath in notImplemented then Warn(path + " is not implemented")
    else match FirstMatchingPath(input, lowerPath)
      case None => Classify(notImplemented, path, "Missing path " + path)
      case Some(k) => OperationsTrail(notImplemented, path, input[k].1.operations, doc.operations, doc.parameters)
  }

  function PathSteps(notImplemented: set<string>, input: seq<(string, PathItem)>, doc: seq<(string, PathItem)>): (r: seq<Trail>)
    ensures |r| == |doc|
  {
    seq(|doc|, k requires 0 <= k < |doc| => PathStep(notImplemented, input, doc[k].0, doc[k].1))
  }

  /** `ComparePaths` */
  function PathsTrail(notImplemented: set<string>, input: seq<(string, PathItem)>, doc: seq<(string, PathItem)>): Trail
  {
    Fold(PathSteps(notImplemented, input, doc))
  }

  // ---------------------------------------------------------------- the whole call

  /** What `Compare` hands back: a result, or the exception a null dereference raised. */
  datatype CompareOutcome = Returned(result: CompareResult) | Threw

  /** The outcome of `Compare` and the comparator's two lists afterwards. */
  datatype Run = Run(outcome: CompareOutcome, warnings: seq<string>, errors: seq<string>)

  /**
    `Compare`, starting from the lists `warnings` and `errors` the comparator holds. An empty
    doc returns the lists as they are (not cleared); otherwise the result is everything the
    lists hold after the walk, and the lists are cleared. An exception leaves them uncleared.
   */
  function CompareRun(
    notImplemented: set<string>, warnings: seq<string>, errors: seq<string>,
    input: Document, doc: Document): Run
  {
    if |doc.paths| == 0 then
      Run(Returned(CompareResult(warnings + [EmptyDocWarning], errors)), warnings + [EmptyDocWarning], errors)
    else
      var walk := PathsTrail(notImplemented, input.paths, doc.paths);
      if walk.threw then Run(Threw, warnings + walk.warnings, errors + walk.errors)
      else Run(Returned(CompareResult(warnings + walk.warnings, errors + walk.errors)), [], [])
  }
}
