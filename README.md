# OpenApiChecker comparison engine, in Dafny

OpenApiChecker checks an implementation's OpenAPI description (the *input*) against a
reference description (the *doc*). The engine is `SpecificationComparator`. It walks the doc
path by path, then operation, parameter, request body, response, media type and schema, and
records a warning or an error for each thing the input lacks or declares differently. An
allow-list of not-implemented paths and "<verb> <path>" keys turns some errors into warnings.

The project models that walk faithfully, source quirks included:

- `strings.dfy`: ASCII lower and upper casing, and prefix tests.
- `openapi.dfy`: the parsed description. Every dictionary is a sequence of entries in document
  order, because that order fixes the order of the messages. It also holds the three lookups
  the engine uses: exact key, first case-insensitive path, first case-insensitive parameter.
- `report.dfy`: `CompareResult`, and the `Trail` of messages one part of the walk appends.
  A trail also records whether that part threw. `Then` composes trails in sequence; `Fold`
  composes the iterations of a loop.
- `traversal.dfy`: one function for each method of the engine. Each gives the messages that
  method appends; together they are the specification of the class.
- `comparator.dfy`: the class `SpecificationComparator`. It has the allow-list and the two
  mutable message lists as fields, and one method per source method, with the source's loops.
  Each method is proved to append exactly its traversal function's messages, and to stop where
  that function throws.
- `properties.dfy`: what the engine promises, as lemmas over the traversal functions. Covered:
  - how missing paths and operations are classified;
  - how parameters are matched, and in what order;
  - what a missing body or missing responses stop;
  - type checking;
  - that a well-formed description compared with itself reports no error;
  - how repeated calls behave.

The source dereferences null in two places of the walk that the model represents:

- an array schema whose `items` is absent on one side;
- a JSON media type without a schema.

Both are modelled as the walk throwing. The messages recorded so far stay in the lists, and
`Compare` ends without a result (`Threw`).

Where the description of the system and the code disagree, the model follows the code:

- An allow-listed path is warned about as "not implemented" even when the input has it. The
  description says this happens only when the path is absent.
- Schema properties are matched by exact name (`PropertyNamesExact`, `PropertyNameCaseWitness`).
  The description says they are matched case-insensitively, like paths and parameters.
- A doc request body that the input lacks ends the whole operation, so its responses are not
  compared either. The description says only the body is skipped.
- Recursive schemas have no cycle guard. In the model, schemas are finite trees.
- Adding to the input an entry that was reported missing does not always remove just that
  message. For a parameter it does (`AddedParameterRemovesItsErrors`). A newly matched path,
  operation, property or response is also walked into, so the messages of its subtree are
  added (`AddedPathChangesOnlyItsMatch` states this for paths).
- Two calls with the same descriptions give the same result only when the lists start empty.
  An empty doc or a throw leaves the lists uncleared, and the next result starts with what
  they held (`EmptyDocWarningCarriedOver`).

## Model

| member | source | states |
|---|---|---|
| Comparator.SpecificationComparator.constructor | src/OpenApiChecker.Main/SpecificationComparator.cs:11-23 | the comparator keeps the allow-list it is given and starts with both message lists empty |
| Comparator.SpecificationComparator.Compare | src/OpenApiChecker.Main/SpecificationComparator.cs:25-41 | stores both path maps. The outcome and the two lists afterwards are `CompareRun` of the lists before: an empty doc adds one warning and returns the lists uncleared; otherwise the walk's messages are appended, and the result is everything held and the lists are then cleared; an exception returns nothing and leaves them uncleared |
| Comparator.SpecificationComparator.ComparePaths | src/OpenApiChecker.Main/SpecificationComparator.cs:43-71 | appends exactly the messages of `PathsTrail` over the doc paths in order, and reports whether a path's walk threw (no later path is then visited) |
| Comparator.SpecificationComparator.CompareParameters | src/OpenApiChecker.Main/SpecificationComparator.cs:73-89 | appends to the errors exactly the `ParametersTrail` errors and leaves the warnings alone |
| Comparator.SpecificationComparator.CompareOperations | src/OpenApiChecker.Main/SpecificationComparator.cs:91-135 | appends exactly the messages of `OperationsTrail`, one doc verb after another, and reports a throw |
| Comparator.SpecificationComparator.CompareRequestBodies | src/OpenApiChecker.Main/SpecificationComparator.cs:137-141 | appends exactly the messages of `BodyTrail`, i.e. the content comparison under "<path> body" |
| Comparator.SpecificationComparator.CompareContents | src/OpenApiChecker.Main/SpecificationComparator.cs:143-160 | appends exactly the messages of `ContentTrail`: nothing without a JSON doc media type, one error without a JSON input media type, otherwise the schema comparison; a missing schema throws |
| Comparator.SpecificationComparator.CompareSchemas | src/OpenApiChecker.Main/SpecificationComparator.cs:162-181 | appends exactly the messages of `SchemaTrail`: type check, combinator warning, then descent into array items or object properties; absent items throw |
| Comparator.SpecificationComparator.CompareTypes | src/OpenApiChecker.Main/SpecificationComparator.cs:183-196 | appends to the errors exactly `TypeTrail`'s errors |
| Comparator.SpecificationComparator.CompareProperties | src/OpenApiChecker.Main/SpecificationComparator.cs:198-211 | appends exactly the messages of `PropertiesTrail`, one doc property after another |
| Comparator.SpecificationComparator.CompareResponses | src/OpenApiChecker.Main/SpecificationComparator.cs:213-233 | appends exactly the messages of `ResponsesTrail`, one doc response after another |
| Traversal.Classify | src/OpenApiChecker.Main/SpecificationComparator.cs:59-62 | the message goes to the warnings if the key is allow-listed and to the errors otherwise, never both |
| Traversal.TypeTrail | src/OpenApiChecker.Main/SpecificationComparator.cs:183-196 | never warns or throws; records no error iff the declared type is empty, equal to the input type, or "number" with an "integer" input; otherwise exactly one "has invalid" error |
| Traversal.VerbDisplay | src/OpenApiChecker.Main/SpecificationComparator.cs:99 | the display name in upper-case letters; lowering it gives back the display name, which is how the allow-list key is built at :103 |
| Traversal.TypeCompatible | src/OpenApiChecker.Main/SpecificationComparator.cs:190 | equal types are compatible, and the only compatible pair of different types is a declared "number" with an input "integer" |
| Traversal.SchemaTitle | src/OpenApiChecker.Main/SpecificationComparator.cs:176 | `Title ?? Reference?.Id`: the title when present, even if empty, otherwise the reference id |
| Traversal.ObjectScope | src/OpenApiChecker.Main/SpecificationComparator.cs:176-177 | the scope equals the path iff the schema title is absent or empty, and is "<path> -> <title>" otherwise |
| Traversal.ObjectScopeCases | src/OpenApiChecker.Main/SpecificationComparator.cs:176-177 | a non-empty title gives "<path> -> <title>"; an empty title gives the path and hides the reference id; without a title a non-empty reference id gives "<path> -> <id>", else the path |
| Traversal.ParametersTrail | src/OpenApiChecker.Main/SpecificationComparator.cs:78-88 | the parameter check never warns and never throws |
| OpenApi.Lookup | src/OpenApiChecker.Main/SpecificationComparator.cs:101 | `TryGetValue`: absent iff no entry has exactly this key; a value found is stored under that key |
| OpenApi.FirstMatchingPath | src/OpenApiChecker.Main/SpecificationComparator.cs:57-67 | absent iff no input path lower-cases to the lowered doc path; otherwise the first input path that does |
| OpenApi.FindParameter | src/OpenApiChecker.Main/SpecificationComparator.cs:80-83 | absent iff no input parameter's lowered name equals the lowered doc name; a parameter found is one of the input's and matches |
| OpenApi.LookupUnique | src/OpenApiChecker.Main/SpecificationComparator.cs:202 | in a dictionary with distinct keys, looking up an entry's key finds that entry's value |
| OpenApi.PrefixLookup | src/OpenApiChecker.Main/SpecificationComparator.cs:202 | entries without the key, put in front, do not change a `TryGetValue` lookup |
| OpenApi.InsertedLookup | src/OpenApiChecker.Main/SpecificationComparator.cs:202 | entries without the key, inserted at any position, do not change a `TryGetValue` lookup |
| OpenApi.DisplayName | src/OpenApiChecker.Main/SpecificationComparator.cs:99 | the display name of every verb is a non-empty word of lower-case letters |
| OpenApi.DisplayNameInjective | src/OpenApiChecker.Main/SpecificationComparator.cs:99-106 | distinct verbs have distinct display names, so the keys and messages of two verbs never coincide |
| Strings.StartsWith | src/OpenApiChecker.Main/SpecificationComparator.cs:218 | `s` starts with `prefix` iff `prefix` is no longer than `s` and agrees with it character by character |
| Strings.LowerOfUpperLetters | src/OpenApiChecker.Main/SpecificationComparator.cs:99-103 | a word of lower-case letters, upper-cased, consists of upper-case letters, and lowering it gives back the word |
| Strings.LowerIdempotent | src/OpenApiChecker.Main/SpecificationComparator.cs:45-49 | lower-casing a lowered string changes nothing |
| Strings.LowerConcat | src/OpenApiChecker.Main/SpecificationComparator.cs:103 | lower-casing distributes over concatenation |
| Report.FoldHalts | src/OpenApiChecker.Main/SpecificationComparator.cs:47-70 | once an iteration of a loop has thrown, the remaining iterations add nothing |
| Report.FoldAppend | src/OpenApiChecker.Main/SpecificationComparator.cs:112 | walking two lists one after the other records what walking their concatenation records |
| Properties.NotImplementedPathWarnsOnly | src/OpenApiChecker.Main/SpecificationComparator.cs:49-55 | a doc path whose lowered form is allow-listed records exactly "<path> is not implemented" as a warning and nothing else, whether or not the input has it |
| Properties.MissingPathClassifiedAsWritten | src/OpenApiChecker.Main/SpecificationComparator.cs:57-65 | a path with no case-insensitive match records exactly one "Missing path" message: a warning iff the allow-list holds the path as written; its operations are not visited |
| Properties.MissingPathIsAlwaysError | src/OpenApiChecker.Main/SpecificationComparator.cs:51-62 | with a lower-cased allow-list (as the program builds it), a missing path is always an error: the warning branch of the second check cannot be reached |
| Properties.MissingOperationClassified | src/OpenApiChecker.Main/SpecificationComparator.cs:99-108 | a doc verb the matched input path lacks records exactly "Missing <path> operation: <VERB>", a warning iff "<verb> <path as written>" is allow-listed |
| Properties.MixedCasePathOperationIsError | src/OpenApiChecker.Main/SpecificationComparator.cs:103-106 | since the key keeps the path as written, a missing operation under a path with an upper-case letter is always an error when the allow-list is lower-cased |
| Properties.PathMatchingIgnoresInputCase | src/OpenApiChecker.Main/SpecificationComparator.cs:45-67 | lower-casing every input path key leaves the whole paths walk unchanged |
| Properties.ExtraInputPathsIgnored | src/OpenApiChecker.Main/SpecificationComparator.cs:45-69 | input paths that match no doc path, inserted at any position, change nothing |
| Properties.InsertedMatches | src/OpenApiChecker.Main/SpecificationComparator.cs:57-67 | inserting non-matching entries anywhere leaves `First` on the same input entry, and leaves `Contains` unchanged |
| Properties.AppendedMatch | src/OpenApiChecker.Main/SpecificationComparator.cs:57-67 | after appending one input path, the first match is the old one, or the new entry if it matches and there was none |
| Properties.AddedPathChangesOnlyItsMatch | src/OpenApiChecker.Main/SpecificationComparator.cs:47-70 | appending an input path that matches exactly one doc path changes only that path's step. The step changes only when the path was missing and not allow-listed; its message is then replaced by the comparison of the new entry's operations |
| Properties.InputPathParametersUnread | src/OpenApiChecker.Main/SpecificationComparator.cs:67-69 | inputs with the same path keys and operations walk alike, whatever path-level parameters their items declare |
| Properties.ParametersExactlyMissing | src/OpenApiChecker.Main/SpecificationComparator.cs:78-88 | the parameter check records, in doc order, exactly one "Missing <path> param" error for each doc parameter that no input parameter matches case-insensitively, and nothing else |
| Properties.OperationThenPathParameters | src/OpenApiChecker.Main/SpecificationComparator.cs:112 | the errors for the operation's doc parameters come first, then those for the doc path's parameters, each checked against the input operation's own parameters |
| Properties.InputOnlyParametersSilent | src/OpenApiChecker.Main/SpecificationComparator.cs:78-88 | input parameters that match no doc parameter, inserted at any position, change nothing |
| Properties.WithoutName | src/OpenApiChecker.Main/SpecificationComparator.cs:80-82 | keeps, in order, exactly the doc parameters whose lowered name differs from the given one |
| Properties.AddedParameterRemovesItsErrors | src/OpenApiChecker.Main/SpecificationComparator.cs:78-88 | appending a parameter to the input gives the same check as dropping from the doc the parameters with its lowered name: exactly their errors go, the rest stay in order |
| Properties.PathParameterMissingFromOperation | src/OpenApiChecker.Main/SpecificationComparator.cs:69-112 | a doc path-level parameter that none of the input operation's own parameters names is reported missing for that operation, whatever the input path item declares |
| Properties.MissingRequestBodyEndsOperation | src/OpenApiChecker.Main/SpecificationComparator.cs:112-119 | a doc body the input lacks: the operation records its parameter errors and then "Missing <op>: requestBody", and nothing from its responses |
| Properties.MissingResponsesRecorded | src/OpenApiChecker.Main/SpecificationComparator.cs:113-130 | doc responses the input lacks: parameter errors, then the body's messages, then exactly "Missing <op>: responses" |
| Properties.InputOnlyResponsesSilent | src/OpenApiChecker.Main/SpecificationComparator.cs:216-228 | input responses whose code is no doc code, inserted at any position, change nothing |
| Properties.SuccessesMembers | src/OpenApiChecker.Main/SpecificationComparator.cs:218 | `Successes` keeps exactly the doc responses whose code starts with "2" |
| Properties.NonSuccessResponsesIgnored | src/OpenApiChecker.Main/SpecificationComparator.cs:216-221 | in any doc response map, the responses walk equals the walk over the entries whose code starts with "2", kept in order: the other entries are skipped |
| Properties.NumberAcceptsInteger | src/OpenApiChecker.Main/SpecificationComparator.cs:190-195 | a declared number accepts an integer; a declared integer rejects a number with the "has invalid" error |
| Properties.CombinatorStopsDescent | src/OpenApiChecker.Main/SpecificationComparator.cs:164-180 | a doc schema without a type records exactly the AnyOf/OneOf/AllOf warning and nothing else |
| Properties.LeafSchemaChecksTypeOnly | src/OpenApiChecker.Main/SpecificationComparator.cs:164-180 | a doc schema of a type other than array or object records only its type check |
| Properties.InputOnlyPropertiesSilent | src/OpenApiChecker.Main/SpecificationComparator.cs:200-209 | input properties whose name is no doc property name, inserted at any position, change nothing |
| Properties.PropertyNamesExact | src/OpenApiChecker.Main/SpecificationComparator.cs:202-206 | a doc property that no input entry has under exactly its name records exactly "Missing <path> property: <name>" and is not descended into, whatever entries match it ignoring case |
| Properties.PropertyNameCaseWitness | src/OpenApiChecker.Main/SpecificationComparator.cs:200-206 | a witness: an input property "Id" against a doc property "id" records exactly the missing-property error |
| Properties.SchemaSelfClean | src/OpenApiChecker.Main/SpecificationComparator.cs:162-181 | a well-formed schema (arrays have items, object property names distinct) compared with itself records no error and does not throw |
| Properties.PropertiesSelfClean | src/OpenApiChecker.Main/SpecificationComparator.cs:198-211 | well-formed properties compared with themselves record no error and do not throw |
| Properties.ContentSelfClean | src/OpenApiChecker.Main/SpecificationComparator.cs:143-160 | a content map whose JSON media type has a well-formed schema, compared with itself, records no error and does not throw |
| Properties.ResponsesSelfClean | src/OpenApiChecker.Main/SpecificationComparator.cs:213-233 | well-formed responses compared with themselves record no error and do not throw |
| Properties.OperationSelfClean | src/OpenApiChecker.Main/SpecificationComparator.cs:111-133 | an operation compared with itself records no error and does not throw, provided its path's parameters are among its own |
| Properties.PathItemSelfClean | src/OpenApiChecker.Main/SpecificationComparator.cs:91-135 | a well-formed path item's operations compared with themselves record no error and do not throw |
| Properties.DocumentSatisfiesItself | src/OpenApiChecker.Main/SpecificationComparator.cs:25-71 | a well-formed, non-empty description compared with itself returns a result with no errors, whatever the allow-list |
| Properties.SelfComparisonMissesPathParameters | src/OpenApiChecker.Main/SpecificationComparator.cs:69-112 | a witness of the rule above: a one-path description whose GET has no parameters and whose path declares `id`, compared with itself, returns exactly the error "Missing GET /a param: id" |
| Properties.EmptyDocWarnsOnce | src/OpenApiChecker.Main/SpecificationComparator.cs:29-33 | an empty doc adds exactly "Doc paths is empty" to the warnings, returns the lists as they now are and does not clear them |
| Properties.CompareRepeatable | src/OpenApiChecker.Main/SpecificationComparator.cs:35-40 | from empty lists, the result is exactly the walk's messages and the lists end empty, so a second identical call returns the same result |
| Properties.EmptyDocWarningCarriedOver | src/OpenApiChecker.Main/SpecificationComparator.cs:29-39 | since an empty doc does not clear the lists, the next call's result begins with its "Doc paths is empty" warning |

## Left out

- The command-line program: option parsing, reading the allow-list file, and printing the
  result. The allow-list is the constructor's `set<string>` argument. The program lower-cases
  it; the lemmas that rely on that say so through `LowerCased`.
- Parsing and reference resolution of the description files. The model starts from the parsed
  tree, and a schema that came from a reference carries that reference's id.
- The console trace lines. They print progress and change no state.
- Recursive schemas. The model's schemas are finite trees, so the unbounded recursion the
  source would enter on a cycle is not represented.
- Culture-sensitive string operations. `ToLower`, `ToUpper` and the verb display names are
  ASCII conversions and a fixed table. The culture-sensitive `StartsWith("2")` on response codes
  is an ordinal prefix test. The two agree on every response key a valid description can hold:
  "default", three-digit codes and "nXX" ranges.
- Parameters with a null name. Names are strings, so the null dereference the source would hit
  there is not represented.
- Comparator.SpecificationComparator.Compare: on an empty doc the source hands back the live
  lists themselves, so the caller's result changes if the comparator is used again. The model
  returns their contents at that moment; the carry-over into the next call is stated by
  `EmptyDocWarningCarriedOver`.
- Exceptions other than the two null dereferences of the walk are not modelled: running out of
  memory, and stack overflow on deep schemas.
