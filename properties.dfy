/**
  What the comparator promises, stated over the traversal functions that its methods are
  proved to follow.
 */
module Properties {
  import opened Strings
  import opened OpenApi
  import opened Report
  import opened Traversal

  // ---------------------------------------------------------------- the allow-list

  /** Every entry of the allow-list is lower case: the caller lower-cases the lines it reads. */
  predicate LowerCased(notImplemented: set<string>)
  {
    forall e :: e in notImplemented ==> IsLower(e)
  }

  /**
    A path whose lower-cased form is allow-listed records exactly one warning and nothing
    else, whether or not the input has the path.
   */
  lemma NotImplementedPathWarnsOnly(
    notImplemented: set<string>, input: seq<(string, PathItem)>, path: string, doc: PathItem)
    requires Lower(path) in notImplemented
    ensures PathStep(notImplemented, input, path, doc) == Warn(path + " is not implemented")
  {
  }

  /**
    A path with no case-insensitive match in the input records one "Missing path" message,
    a warning exactly when the allow-list holds the path as written, and its operations are
    not visited.
   */
  lemma MissingPathClassifiedAsWritten(
    notImplemented: set<string>, input: seq<(string, PathItem)>, path: string, doc: PathItem)
    requires Lower(path) !in notImplemented
    requires forall j :: 0 <= j < |input| ==> Lower(input[j].0) != Lower(path)
    ensures PathStep(notImplemented, input, path, doc)
         == (if path in notImplemented then Warn("Missing path " + path) else Fail("Missing path " + path))
  {
  }

  /**
    With a lower-cased allow-list the warning branch for a missing path is never taken: an
    allow-listed path is lower case, so the earlier check has already caught it.
   */
  lemma MissingPathIsAlwaysError(
    notImplemented: set<string>, input: seq<(string, PathItem)>, path: string, doc: PathItem)
    requires LowerCased(notImplemented)
    requires Lower(path) !in notImplemented
    requires forall j :: 0 <= j < |input| ==> Lower(input[j].0) != Lower(path)
    ensures PathStep(notImplemented, input, path, doc) == Fail("Missing path " + path)
  {
  }

  function MissingOperation(path: string, v: Verb): string
  {
    "Missing " + path + " operation: " + VerbDisplay(v)
  }

  /**
    A doc verb the matched input path lacks records one "Missing ... operation" message, a
    warning exactly when the allow-list holds "<verb> <path>" with the path as written.
   */
  lemma MissingOperationClassified(
    notImplemented: set<string>, path: string, input: seq<(Verb, Operation)>,
    verb: Verb, doc: Operation, pathParams: seq<Parameter>)
    requires forall k :: 0 <= k < |input| ==> input[k].0 != verb
    ensures OperationStep(notImplemented, path, input, verb, doc, pathParams)
         == (if DisplayName(verb) + " " + path in notImplemented then Warn(MissingOperation(path, verb))
             else Fail(MissingOperation(path, verb)))
  {
  }

  /**
    The operation key is built from the path as written, so with a lower-cased allow-list a
    missing operation under a path that has upper-case letters is always an error.
   */
  lemma MixedCasePathOperationIsError(
    notImplemented: set<string>, path: string, input: seq<(Verb, Operation)>,
    verb: Verb, doc: Operation, pathParams: seq<Parameter>)
    requires LowerCased(notImplemented) && !IsLower(path)
    requires forall k :: 0 <= k < |input| ==> input[k].0 != verb
    ensures OperationStep(notImplemented, path, input, verb, doc, pathParams) == Fail(MissingOperation(path, verb))
  {
    MissingOperationClassified(notImplemented, path, input, verb, doc, pathParams);
    UpperCaseSurvivesPrefix(DisplayName(verb) + " ", path);
  }

  /** A string with an upper-case letter keeps it behind any prefix. */
  lemma UpperCaseSurvivesPrefix(prefix: string, s: string)
    requires !IsLower(s)
    ensures !IsLower(prefix + s)
  {
    LowerConcat(prefix, s);
    var k :| 0 <= k < |s| && LowerChar(s[k]) != s[k];
    assert Lower(prefix + s)[|prefix| + k] == LowerChar(s[k]);
    assert (prefix + s)[|prefix| + k] == s[k];
  }

  // ---------------------------------------------------------------- paths

  /** The input with every path key lower-cased. */
  function LowerKeys(paths: seq<(string, PathItem)>): (r: seq<(string, PathItem)>)
    ensures |r| == |paths|
  {
    seq(|paths|, i requires 0 <= i < |paths| => (Lower(paths[i].0), paths[i].1))
  }

  /** Two path lists that agree on which keys match and on the items find the same index. */
  lemma {:induction false} SameMatches(a: seq<(string, PathItem)>, b: seq<(string, PathItem)>, lowerPath: string)
    requires |a| == |b|
    requires forall j :: 0 <= j < |a| ==> (Lower(a[j].0) == lowerPath <==> Lower(b[j].0) == lowerPath)
    ensures FirstMatchingPath(a, lowerPath) == FirstMatchingPath(b, lowerPath)
  {
    if |a| > 0 {
      SameMatches(a[1..], b[1..], lowerPath);
    }
  }

  /** Paths are matched case-insensitively: lower-casing the input's keys changes nothing. */
  lemma PathMatchingIgnoresInputCase(
    notImplemented: set<string>, input: seq<(string, PathItem)>, doc: seq<(string, PathItem)>)
    ensures PathsTrail(notImplemented, LowerKeys(input), doc) == PathsTrail(notImplemented, input, doc)
  {
    var lowered := LowerKeys(input);
    forall j | 0 <= j < |input|
      ensures Lower(lowered[j].0) == Lower(input[j].0)
    {
      LowerIdempotent(input[j].0);
    }
    forall k | 0 <= k < |doc|
      ensures PathStep(notImplemented, lowered, doc[k].0, doc[k].1) == PathStep(notImplemented, input, doc[k].0, doc[k].1)
    {
      SameMatches(lowered, input, Lower(doc[k].0));
    }
    assert PathSteps(notImplemented, lowered, doc) == PathSteps(notImplemented, input, doc);
  }

  /**
    The walk only visits the doc: input paths matching no doc path change nothing, wherever
    they are inserted, since the first match then names the same input entry.
   */
  lemma ExtraInputPathsIgnored(
    notImplemented: set<string>, input: seq<(string, PathItem)>, i: nat, extra: seq<(string, PathItem)>,
    doc: seq<(string, PathItem)>)
    requires i <= |input|
    requires forall e, j :: 0 <= e < |extra| && 0 <= j < |doc| ==> Lower(extra[e].0) != Lower(doc[j].0)
    ensures PathsTrail(notImplemented, input[..i] + extra + input[i..], doc) == PathsTrail(notImplemented, input, doc)
  {
    var extended := input[..i] + extra + input[i..];
    forall k | 0 <= k < |doc|
      ensures PathStep(notImplemented, extended, doc[k].0, doc[k].1) == PathStep(notImplemented, input, doc[k].0, doc[k].1)
    {
      InsertedMatches(input, i, extra, Lower(doc[k].0));
    }
    assert PathSteps(notImplemented, extended, doc) == PathSteps(notImplemented, input, doc);
  }

  /** Entries that do not match, inserted anywhere, leave the first match on the same entry. */
  lemma {:induction false} InsertedMatches(input: seq<(string, PathItem)>, i: nat, extra: seq<(string, PathItem)>, lowerPath: string)
    requires i <= |input|
    requires forall e :: 0 <= e < |extra| ==> Lower(extra[e].0) != lowerPath
    ensures var extended := input[..i] + extra + input[i..];
      var r := FirstMatchingPath(extended, lowerPath);
      var s := FirstMatchingPath(input, lowerPath);
      (r.None? <==> s.None?) && (r.Some? ==> s.Some? && extended[r.value] == input[s.value])
  {
    var extended := input[..i] + extra + input[i..];
    if i == 0 {
      assert extended == extra + input;
      PrefixMisses(extra, input, lowerPath);
    } else if Lower(input[0].0) == lowerPath {
      assert extended[0] == input[0];
    } else {
      var tail := input[1..];
      assert extended[1..] == tail[..i - 1] + extra + tail[i - 1..];
      assert extended[0] == input[0];
      InsertedMatches(tail, i - 1, extra, lowerPath);
    }
  }

  /** Entries that do not match, put in front, shift the first match by their number. */
  lemma {:induction false} PrefixMisses(extra: seq<(string, PathItem)>, input: seq<(string, PathItem)>, lowerPath: string)
    requires forall e :: 0 <= e < |extra| ==> Lower(extra[e].0) != lowerPath
    ensures FirstMatchingPath(extra + input, lowerPath)
         == match FirstMatchingPath(input, lowerPath) case None => None case Some(k) => Some(|extra| + k)
  {
    if |extra| > 0 {
      assert (extra + input)[0] == extra[0];
      assert (extra + input)[1..] == extra[1..] + input;
      PrefixMisses(extra[1..], input, lowerPath);
    } else {
      assert extra + input == input;
    }
  }

  /** One more input path: the first match stays where it was, or is the new entry if there was none. */
  lemma {:induction false} AppendedMatch(input: seq<(string, PathItem)>, p: (string, PathItem), lowerPath: string)
    ensures FirstMatchingPath(input + [p], lowerPath)
         == match FirstMatchingPath(input, lowerPath)
            case Some(k) => Some(k)
            case None => if Lower(p.0) == lowerPath then Some(|input|) else None
  {
    if |input| > 0 {
      assert (input + [p])[0] == input[0];
      assert (input + [p])[1..] == input[1..] + [p];
      AppendedMatch(input[1..], p, lowerPath);
    } else {
      assert input + [p] == [p];
    }
  }

  /**
    Adding an input path that matches exactly one doc path changes that path's step only. The
    step changes at all only when the path was missing and is not allow-listed, and then the
    missing-path message is replaced by the comparison of the new entry's operations.
   */
  lemma AddedPathChangesOnlyItsMatch(
    notImplemented: set<string>, input: seq<(string, PathItem)>, p: (string, PathItem),
    doc: seq<(string, PathItem)>, d: nat)
    requires d < |doc| && Lower(p.0) == Lower(doc[d].0)
    requires forall j :: 0 <= j < |doc| && j != d ==> Lower(doc[j].0) != Lower(p.0)
    ensures PathSteps(notImplemented, input + [p], doc)
         == PathSteps(notImplemented, input, doc)[d := PathStep(notImplemented, input + [p], doc[d].0, doc[d].1)]
    ensures PathStep(notImplemented, input + [p], doc[d].0, doc[d].1)
         == if Lower(doc[d].0) !in notImplemented && FirstMatchingPath(input, Lower(doc[d].0)).None?
            then OperationsTrail(notImplemented, doc[d].0, p.1.operations, doc[d].1.operations, doc[d].1.parameters)
            else PathStep(notImplemented, input, doc[d].0, doc[d].1)
  {
    forall k | 0 <= k < |doc|
      ensures k != d ==> PathStep(notImplemented, input + [p], doc[k].0, doc[k].1) == PathStep(notImplemented, input, doc[k].0, doc[k].1)
    {
      AppendedMatch(input, p, Lower(doc[k].0));
    }
    AppendedMatch(input, p, Lower(doc[d].0));
    match FirstMatchingPath(input, Lower(doc[d].0))
    case Some(m) => assert (input + [p])[m] == input[m];
    case None => assert (input + [p])[|input|] == p;
  }

  // ---------------------------------------------------------------- parameters

  /** The messages of the parameter check, defined from the first parameter on. */
  function MissingParameters(path: string, input: seq<Parameter>, doc: seq<Parameter>): seq<string>
  {
    if |doc| == 0 then []
    else
      (if exists j :: 0 <= j < |input| && Lower(input[j].name) == Lower(doc[0].name) then []
       else [MissingParameter(path, doc[0].name)])
      + MissingParameters(path, input, doc[1..])
  }

  /**
    The parameter check records one error for each doc parameter whose name matches no input
    parameter name case-insensitively, in doc order, and nothing else.
   */
  lemma {:induction false} ParametersExactlyMissing(path: string, input: seq<Parameter>, doc: seq<Parameter>)
    ensures ParametersTrail(path, input, doc) == Trail([], MissingParameters(path, input, doc), false)
  {
    if |doc| > 0 {
      var steps := ParameterSteps(path, input, doc);
      assert steps == [steps[0]] + ParameterSteps(path, input, doc[1..]);
      FoldCons(steps[0], ParameterSteps(path, input, doc[1..]));
      ParametersExactlyMissing(path, input, doc[1..]);
    }
  }

  /** The operation's own parameters are checked first, then the path's. */
  lemma OperationThenPathParameters(path: string, input: seq<Parameter>, opParams: seq<Parameter>, pathParams: seq<Parameter>)
    ensures ParametersTrail(path, input, opParams + pathParams).errors
         == ParametersTrail(path, input, opParams).errors + ParametersTrail(path, input, pathParams).errors
  {
    assert ParameterSteps(path, input, opParams + pathParams)
        == ParameterSteps(path, input, opParams) + ParameterSteps(path, input, pathParams);
    FoldAppend(ParameterSteps(path, input, opParams), ParameterSteps(path, input, pathParams));
  }

  /** Parameters only the input declares never produce a message, wherever they are inserted. */
  lemma InputOnlyParametersSilent(path: string, input: seq<Parameter>, i: nat, extra: seq<Parameter>, doc: seq<Parameter>)
    requires i <= |input|
    requires forall e, j :: 0 <= e < |extra| && 0 <= j < |doc| ==> Lower(extra[e].name) != Lower(doc[j].name)
    ensures ParametersTrail(path, input[..i] + extra + input[i..], doc) == ParametersTrail(path, input, doc)
  {
    var extended := input[..i] + extra + input[i..];
    forall k | 0 <= k < |doc|
      ensures ParameterStep(path, extended, doc[k]) == ParameterStep(path, input, doc[k])
    {
      var l := Lower(doc[k].name);
      forall j | 0 <= j < |input| && Lower(input[j].name) == l
        ensures FindParameter(extended, l).Some?
      {
        if j < i {
          assert extended[j] == input[j];
        } else {
          assert extended[j + |extra|] == input[j];
        }
      }
      forall j | 0 <= j < |extended| && Lower(extended[j].name) == l
        ensures FindParameter(input, l).Some?
      {
        if j < i {
          assert extended[j] == input[j];
        } else if j < i + |extra| {
          assert false;
        } else {
          assert extended[j] == input[j - |extra|];
        }
      }
    }
    assert ParameterSteps(path, extended, doc) == ParameterSteps(path, input, doc);
  }

  /** Whether some parameter of the list has the lowered name `lowerName`. */
  predicate Declares(parameters: seq<Parameter>, lowerName: string)
  {
    exists j :: 0 <= j < |parameters| && Lower(parameters[j].name) == lowerName
  }

  /** The doc parameters, in order, without those of the lowered name `lowerName`. */
  function WithoutName(doc: seq<Parameter>, lowerName: string): (r: seq<Parameter>)
    ensures forall x :: x in r <==> x in doc && Lower(x.name) != lowerName
  {
    if |doc| == 0 then []
    else (if Lower(doc[0].name) == lowerName then [] else [doc[0]]) + WithoutName(doc[1..], lowerName)
  }

  /**
    Adding a parameter to the input removes exactly the errors of the doc parameters with its
    lowered name, and keeps all the others in their order.
   */
  lemma AddedParameterRemovesItsErrors(path: string, input: seq<Parameter>, q: Parameter, doc: seq<Parameter>)
    ensures ParametersTrail(path, input + [q], doc) == ParametersTrail(path, input, WithoutName(doc, Lower(q.name)))
  {
    ParametersExactlyMissing(path, input + [q], doc);
    ParametersExactlyMissing(path, input, WithoutName(doc, Lower(q.name)));
    AddedParameterMissing(path, input, q, doc);
  }

  lemma {:induction false} AddedParameterMissing(path: string, input: seq<Parameter>, q: Parameter, doc: seq<Parameter>)
    ensures MissingParameters(path, input + [q], doc) == MissingParameters(path, input, WithoutName(doc, Lower(q.name)))
  {
    if |doc| > 0 {
      var l := Lower(doc[0].name);
      var extended := input + [q];
      assert Declares(extended, l) <==> Declares(input, l) || Lower(q.name) == l by {
        if Declares(input, l) {
          var j :| 0 <= j < |input| && Lower(input[j].name) == l;
          assert extended[j] == input[j];
        }
        if Lower(q.name) == l {
          assert extended[|input|] == q;
        }
        if Declares(extended, l) {
          var j :| 0 <= j < |extended| && Lower(extended[j].name) == l;
          if j < |input| {
            assert extended[j] == input[j];
          }
        }
      }
      AddedParameterMissing(path, input, q, doc[1..]);
      var rest := WithoutName(doc[1..], Lower(q.name));
      var kept := WithoutName(doc, Lower(q.name));
      var head := if Declares(input, l) then [] else [MissingParameter(path, doc[0].name)];
      if Lower(q.name) != l {
        assert kept == [doc[0]] + rest;
        assert kept[0] == doc[0] && kept[1..] == rest;
        assert MissingParameters(path, input, kept) == head + MissingParameters(path, input, rest);
        assert MissingParameters(path, extended, doc) == head + MissingParameters(path, extended, doc[1..]);
      } else {
        assert kept == [] + rest == rest;
        assert Declares(extended, l);
        assert MissingParameters(path, extended, doc) == [] + MissingParameters(path, extended, doc[1..]);
        assert MissingParameters(path, extended, doc) == MissingParameters(path, extended, doc[1..]);
      }
    }
  }

  // ---------------------------------------------------------------- operations

  /**
    A doc request body the input lacks records one error after the parameter errors and ends
    the operation: its responses are not compared.
   */
  lemma MissingRequestBodyEndsOperation(operationPath: string, input: Operation, doc: Operation, pathParams: seq<Parameter>)
    requires doc.requestBody.Some? && input.requestBody.None?
    ensures MatchedOperationTrail(operationPath, input, doc, pathParams)
         == Trail([], ParametersTrail(operationPath, input.parameters, doc.parameters + pathParams).errors
                      + ["Missing " + operationPath + ": requestBody"], false)
  {
  }

  /** Doc responses the input lacks record one error, after the body's messages. */
  lemma MissingResponsesRecorded(operationPath: string, input: Operation, doc: Operation, pathParams: seq<Parameter>)
    requires doc.responses.Some? && input.responses.None?
    requires !(doc.requestBody.Some? && input.requestBody.None?)
    requires !BodyPart(operationPath, input, doc).threw
    ensures var body := BodyPart(operationPath, input, doc);
      MatchedOperationTrail(operationPath, input, doc, pathParams)
      == Trail(body.warnings,
               ParametersTrail(operationPath, input.parameters, doc.parameters + pathParams).errors
               + body.errors + ["Missing " + operationPath + ": responses"], false)
  {
  }

  // ---------------------------------------------------------------- responses

  /** The doc responses, in order, whose code starts with "2". */
  function Successes(doc: seq<(string, Response)>): (r: seq<(string, Response)>)
    ensures |r| <= |doc|
  {
    if |doc| == 0 then []
    else (if StartsWith(doc[0].0, "2") then [doc[0]] else []) + Successes(doc[1..])
  }

  /** `Successes` keeps exactly the entries whose code starts with "2". */
  lemma {:induction false} SuccessesMembers(doc: seq<(string, Response)>)
    ensures forall e :: e in Successes(doc) <==> e in doc && StartsWith(e.0, "2")
  {
    if |doc| > 0 {
      SuccessesMembers(doc[1..]);
      assert doc == [doc[0]] + doc[1..];
    }
  }

  /**
    Responses whose code does not start with "2" are neither compared nor reported: the
    responses walk is the walk over the success codes alone.
   */
  lemma {:induction false} NonSuccessResponsesIgnored(path: string, input: seq<(string, Response)>, doc: seq<(string, Response)>)
    ensures ResponsesTrail(path, input, doc) == ResponsesTrail(path, input, Successes(doc))
  {
    if |doc| > 0 {
      var first := ResponseStep(path, input, doc[0].0, doc[0].1);
      ResponseStepsCons(path, input, [doc[0]], doc[1..]);
      assert [doc[0]] + doc[1..] == doc;
      FoldCons(first, ResponseSteps(path, input, doc[1..]));
      NonSuccessResponsesIgnored(path, input, doc[1..]);
      var kept := Successes(doc[1..]);
      if StartsWith(doc[0].0, "2") {
        assert Successes(doc) == [doc[0]] + kept;
        ResponseStepsCons(path, input, [doc[0]], kept);
        FoldCons(first, ResponseSteps(path, input, kept));
      } else {
        assert Successes(doc) == [] + kept == kept;
        assert first == Nothing;
        NothingThen(ResponsesTrail(path, input, doc[1..]));
        assert ResponsesTrail(path, input, doc) == ResponsesTrail(path, input, doc[1..]);
      }
    }
  }

  lemma ResponseStepsCons(path: string, input: seq<(string, Response)>, head: seq<(string, Response)>, tail: seq<(string, Response)>)
    requires |head| == 1
    ensures ResponseSteps(path, input, head + tail)
         == [ResponseStep(path, input, head[0].0, head[0].1)] + ResponseSteps(path, input, tail)
  {
  }

  lemma NothingThen(t: Trail)
    ensures Then(Nothing, t) == t
  {
    assert [] + t.warnings == t.warnings && [] + t.errors == t.errors;
  }

  /**
    The responses walk only visits the doc: input responses whose code is no doc code change
    nothing, wherever they are inserted.
   */
  lemma InputOnlyResponsesSilent(
    path: string, input: seq<(string, Response)>, i: nat, extra: seq<(string, Response)>, doc: seq<(string, Response)>)
    requires i <= |input|
    requires forall e, j :: 0 <= e < |extra| && 0 <= j < |doc| ==> extra[e].0 != doc[j].0
    ensures ResponsesTrail(path, input[..i] + extra + input[i..], doc) == ResponsesTrail(path, input, doc)
  {
    var extended := input[..i] + extra + input[i..];
    forall k | 0 <= k < |doc|
      ensures ResponseStep(path, extended, doc[k].0, doc[k].1) == ResponseStep(path, input, doc[k].0, doc[k].1)
    {
      InsertedLookup(input, i, extra, doc[k].0);
    }
    assert ResponseSteps(path, extended, doc) == ResponseSteps(path, input, doc);
  }

  // ---------------------------------------------------------------- schemas

  /** A declared number accepts an integer; a declared integer does not accept a number. */
  lemma NumberAcceptsInteger(path: string)
    ensures TypeTrail(path, "integer", "number") == Nothing
    ensures TypeTrail(path, "number", "integer") == Fail(TypeMismatch(path, "number", "integer"))
  {
  }

  /** A schema without a declared type records the combinator warning and is not descended into. */
  lemma CombinatorStopsDescent(path: string, input: Schema, doc: Schema)
    requires doc.typeName == ""
    ensures SchemaTrail(path, input, doc) == Warn(path + CombinatorNotice)
  {
  }

  /** A declared type other than array and object is a leaf: only its type is checked. */
  lemma LeafSchemaChecksTypeOnly(path: string, input: Schema, doc: Schema)
    requires doc.typeName !in {"", "array", "object"}
    ensures SchemaTrail(path, input, doc) == TypeTrail(path, input.typeName, doc.typeName)
  {
  }

  /**
    The properties walk only visits the doc: input properties whose name is no doc property
    name change nothing, wherever they are inserted.
   */
  lemma InputOnlyPropertiesSilent(
    path: string, input: Properties, i: nat, extra: seq<(string, Schema)>, doc: Properties)
    requires i <= |input.entries|
    requires forall e, j :: 0 <= e < |extra| && 0 <= j < |doc.entries| ==> extra[e].0 != doc.entries[j].0
    ensures PropertiesTrail(path, Properties(input.entries[..i] + extra + input.entries[i..]), doc)
         == PropertiesTrail(path, input, doc)
  {
    var extended := Properties(input.entries[..i] + extra + input.entries[i..]);
    forall k | 0 <= k < |doc.entries|
      ensures PropertyStep(path, extended, doc.entries[k].0, doc.entries[k].1)
           == PropertyStep(path, input, doc.entries[k].0, doc.entries[k].1)
    {
      InsertedLookup(input.entries, i, extra, doc.entries[k].0);
    }
    assert PropertySteps(path, extended, doc) == PropertySteps(path, input, doc);
  }

  /**
    Properties are matched by exact name: a doc property no input entry has under exactly its
    name is reported missing, whatever entries match it ignoring case, and is not descended into.
   */
  lemma PropertyNamesExact(path: string, input: Properties, name: string, doc: Schema)
    requires forall j :: 0 <= j < |input.entries| ==> input.entries[j].0 != name
    ensures PropertyStep(path, input, name, doc) == Fail("Missing " + path + " property: " + name)
  {
  }

  /** A witness of `PropertyNamesExact`: an input property "Id" does not satisfy a doc property "id". */
  lemma PropertyNameCaseWitness(path: string, s: Schema)
    ensures PropertiesTrail(path, Properties([("Id", s)]), Properties([("id", s)])) == Fail("Missing " + path + " property: id")
  {
    var input := Properties([("Id", s)]);
    assert "Id"[0] != "id"[0];
    assert input.entries[0].0 != "id";
    PropertyNamesExact(path, input, "id", s);
    assert "Missing " + path + " property: " + "id" == "Missing " + path + " property: id";
    var steps := PropertySteps(path, input, Properties([("id", s)]));
    assert steps[0] == PropertyStep(path, input, "id", s);
    assert steps == [Fail("Missing " + path + " property: id")];
    assert steps[..0] == [];
    assert Fold(steps) == Then(Nothing, steps[0]);
    NothingThen(steps[0]);
  }

  // ---------------------------------------------------------------- a description against itself

  /**
    A schema the comparison can walk: every array has items, every object has distinct
    property names, all the way down.
   */
  predicate WellFormedSchema(s: Schema)
    decreases s, 0
  {
    (s.typeName == "array" ==> s.items.Some? && WellFormedSchema(s.items.value))
    && (s.typeName == "object" ==> WellFormedProperties(s.properties))
  }

  predicate WellFormedProperties(p: Properties)
    decreases p, 1
  {
    UniqueKeys(p.entries)
    && forall k :: 0 <= k < |p.entries| ==> WellFormedSchema(p.entries[k].1)
  }

  /** A well-formed schema compared with itself records no error and does not throw. */
  lemma {:induction false} SchemaSelfClean(path: string, s: Schema)
    requires WellFormedSchema(s)
    ensures Clean(SchemaTrail(path, s, s))
    decreases s, 0
  {
    if s.typeName == "array" {
      SchemaSelfClean(path + " -> array", s.items.value);
    } else if s.typeName == "object" {
      PropertiesSelfClean(ObjectScope(path, s), s.properties);
    }
  }

  lemma {:induction false} PropertiesSelfClean(path: string, p: Properties)
    requires WellFormedProperties(p)
    ensures Clean(PropertiesTrail(path, p, p))
    decreases p, 1
  {
    var steps := PropertySteps(path, p, p);
    forall k | 0 <= k < |steps|
      ensures Clean(steps[k])
    {
      assert steps[k] == PropertyStep(path, p, p.entries[k].0, p.entries[k].1);
      LookupUnique(p.entries, k);
      SchemaSelfClean(path + " -> " + p.entries[k].0, p.entries[k].1);
    }
    FoldClean(steps);
  }

  /** The JSON media type of a content map, if any, has a well-formed schema. */
  predicate WellFormedContent(content: seq<(string, MediaType)>)
  {
    match Lookup(content, JsonApplication)
    case None => true
    case Some(media) => media.schema.Some? && WellFormedSchema(media.schema.value)
  }

  lemma ContentSelfClean(path: string, content: seq<(string, MediaType)>)
    requires WellFormedContent(content)
    ensures Clean(ContentTrail(path, content, content))
  {
    match Lookup(content, JsonApplication)
    case None =>
    case Some(media) => SchemaSelfClean(path, media.schema.value);
  }

  predicate WellFormedResponses(responses: seq<(string, Response)>)
  {
    UniqueKeys(responses)
    && forall k :: 0 <= k < |responses| ==> WellFormedContent(responses[k].1.content)
  }

  lemma ResponsesSelfClean(path: string, responses: seq<(string, Response)>)
    requires WellFormedResponses(responses)
    ensures Clean(ResponsesTrail(path, responses, responses))
  {
    var steps := ResponseSteps(path, responses, responses);
    forall k | 0 <= k < |steps|
      ensures Clean(steps[k])
    {
      LookupUnique(responses, k);
      ContentSelfClean(path + " " + responses[k].0, responses[k].1.content);
    }
    FoldClean(steps);
  }

  /**
    An operation the comparison can walk against itself: its bodies and responses are well
    formed, and every parameter of its path is also one of its own parameters.
   */
  predicate WellFormedOperation(op: Operation, pathParams: seq<Parameter>)
  {
    (op.requestBody.Some? ==> WellFormedContent(op.requestBody.value.content))
    && (op.responses.Some? ==> WellFormedResponses(op.responses.value))
    && forall p :: p in pathParams ==> FindParameter(op.parameters, Lower(p.name)).Some?
  }

  lemma OperationSelfClean(operationPath: string, op: Operation, pathParams: seq<Parameter>)
    requires WellFormedOperation(op, pathParams)
    ensures Clean(MatchedOperationTrail(operationPath, op, op, pathParams))
  {
    var doc := op.parameters + pathParams;
    var steps := ParameterSteps(operationPath, op.parameters, doc);
    forall k | 0 <= k < |steps|
      ensures Clean(steps[k])
    {
      if k < |op.parameters| {
        assert doc[k] == op.parameters[k];
      } else {
        assert doc[k] in pathParams;
      }
    }
    FoldClean(steps);
    if op.requestBody.Some? {
      ContentSelfClean(operationPath + " body", op.requestBody.value.content);
    }
    if op.responses.Some? {
      ResponsesSelfClean(operationPath + " responses", op.responses.value);
    }
  }

  predicate WellFormedPathItem(item: PathItem)
  {
    UniqueKeys(item.operations)
    && forall k :: 0 <= k < |item.operations| ==> WellFormedOperation(item.operations[k].1, item.parameters)
  }

  /** Path keys are distinct even ignoring case, and every path item is well formed. */
  predicate WellFormedDocument(d: Document)
  {
    (forall i, j :: 0 <= i < j < |d.paths| ==> Lower(d.paths[i].0) != Lower(d.paths[j].0))
    && forall k :: 0 <= k < |d.paths| ==> WellFormedPathItem(d.paths[k].1)
  }

  lemma PathItemSelfClean(notImplemented: set<string>, path: string, item: PathItem)
    requires WellFormedPathItem(item)
    ensures Clean(OperationsTrail(notImplemented, path, item.operations, item.operations, item.parameters))
  {
    var steps := OperationSteps(notImplemented, path, item.operations, item.operations, item.parameters);
    forall k | 0 <= k < |steps|
      ensures Clean(steps[k])
    {
      LookupUnique(item.operations, k);
      OperationSelfClean(VerbDisplay(item.operations[k].0) + " " + path, item.operations[k].1, item.parameters);
    }
    FoldClean(steps);
  }

  /**
    A well-formed description compared with itself reports no error and does not throw,
    whatever the allow-list: the only messages are warnings.
   */
  lemma DocumentSatisfiesItself(notImplemented: set<string>, d: Document)
    requires WellFormedDocument(d) && |d.paths| > 0
    ensures var run := CompareRun(notImplemented, [], [], d, d);
      run.outcome.Returned? && run.outcome.result.errors == []
  {
    var steps := PathSteps(notImplemented, d.paths, d.paths);
    forall k | 0 <= k < |steps|
      ensures Clean(steps[k])
    {
      if Lower(d.paths[k].0) !in notImplemented {
        match FirstMatchingPath(d.paths, Lower(d.paths[k].0))
        case None =>
        case Some(m) =>
          assert m == k;
          PathItemSelfClean(notImplemented, d.paths[k].0, d.paths[k].1);
      }
    }
    FoldClean(steps);
  }

  /**
    The input's path-level parameters are never read: two inputs with the same path keys and
    the same operations, whatever parameters their path items declare, walk alike.
   */
  lemma InputPathParametersUnread(
    notImplemented: set<string>, a: seq<(string, PathItem)>, b: seq<(string, PathItem)>, doc: seq<(string, PathItem)>)
    requires |a| == |b|
    requires forall j :: 0 <= j < |a| ==> a[j].0 == b[j].0 && a[j].1.operations == b[j].1.operations
    ensures PathsTrail(notImplemented, a, doc) == PathsTrail(notImplemented, b, doc)
  {
    forall k | 0 <= k < |doc|
      ensures PathStep(notImplemented, a, doc[k].0, doc[k].1) == PathStep(notImplemented, b, doc[k].0, doc[k].1)
    {
      SameMatches(a, b, Lower(doc[k].0));
    }
    assert PathSteps(notImplemented, a, doc) == PathSteps(notImplemented, b, doc);
  }

  /** Every unmatched doc parameter has its message in the list of missing parameters. */
  lemma {:induction false} MissingParametersHas(path: string, input: seq<Parameter>, doc: seq<Parameter>, p: Parameter)
    requires p in doc && !Declares(input, Lower(p.name))
    ensures MissingParameter(path, p.name) in MissingParameters(path, input, doc)
  {
    if doc[0] != p {
      MissingParametersHas(path, input, doc[1..], p);
    }
  }

  /**
    A doc path-level parameter is looked for among the input operation's own parameters only:
    if none of them has its name, the operation reports it missing, whatever the input path
    item declares. Comparing a description with itself therefore reports every path-level
    parameter that its operations do not repeat.
   */
  lemma PathParameterMissingFromOperation(
    operationPath: string, input: Operation, doc: Operation, pathParams: seq<Parameter>, p: Parameter)
    requires p in pathParams && FindParameter(input.parameters, Lower(p.name)).None?
    ensures MissingParameter(operationPath, p.name) in MatchedOperationTrail(operationPath, input, doc, pathParams).errors
  {
    var all := doc.parameters + pathParams;
    var params := ParametersTrail(operationPath, input.parameters, all);
    ParametersExactlyMissing(operationPath, input.parameters, all);
    MissingParametersHas(operationPath, input.parameters, all, p);
    assert MissingParameter(operationPath, p.name) in params.errors;
  }

  /**
    A witness of `PathParameterMissingFromOperation`: a description that declares a parameter
    at path level, and not in its operation, reports it missing when compared with itself.
   */
  lemma SelfComparisonMissesPathParameters()
    ensures var item := PathItem([(Get, Operation([], None, None))], [Parameter("id")]);
      var d := Document([("/a", item)]);
      CompareRun({}, [], [], d, d).outcome == Returned(CompareResult([], ["Missing GET /a param: id"]))
  {
    var op := Operation([], None, None);
    var item := PathItem([(Get, op)], [Parameter("id")]);
    var d := Document([("/a", item)]);
    assert Lower("/a") == "/a";
    assert FirstMatchingPath(d.paths, "/a") == Some(0);
    assert VerbDisplay(Get) == "GET";
    ParametersExactlyMissing("GET /a", [], [Parameter("id")]);
    assert MissingParameter("GET /a", "id") == "Missing GET /a param: id";
    assert MissingParameters("GET /a", [], [Parameter("id")][1..]) == [];
    assert MissingParameters("GET /a", [], [Parameter("id")]) == ["Missing GET /a param: id"];
    assert op.parameters + item.parameters == [Parameter("id")];
    assert VerbDisplay(Get) + " " + "/a" == "GET /a";
    assert MatchedOperationTrail("GET /a", op, op, item.parameters) == Fail("Missing GET /a param: id");
    var steps := OperationSteps({}, "/a", item.operations, item.operations, item.parameters);
    assert steps[0] == OperationStep({}, "/a", item.operations, Get, op, item.parameters);
    assert steps == [Fail("Missing GET /a param: id")];
    var paths := PathSteps({}, d.paths, d.paths);
    assert paths == [Fail("Missing GET /a param: id")];
  }

  // ---------------------------------------------------------------- the whole call

  /** An empty doc records exactly one warning, does not clear the lists and hands them back. */
  lemma EmptyDocWarnsOnce(
    notImplemented: set<string>, warnings: seq<string>, errors: seq<string>, input: Document, doc: Document)
    requires |doc.paths| == 0
    ensures CompareRun(notImplemented, warnings, errors, input, doc)
         == Run(Returned(CompareResult(warnings + [EmptyDocWarning], errors)), warnings + [EmptyDocWarning], errors)
  {
  }

  /**
    For a doc with paths the result is everything recorded and the lists end empty, so a
    second call from empty lists hands back the same result.
   */
  lemma CompareRepeatable(notImplemented: set<string>, input: Document, doc: Document)
    requires |doc.paths| > 0 && !PathsTrail(notImplemented, input.paths, doc.paths).threw
    ensures var walk := PathsTrail(notImplemented, input.paths, doc.paths);
      var first := CompareRun(notImplemented, [], [], input, doc);
      first == Run(Returned(CompareResult(walk.warnings, walk.errors)), [], [])
      && CompareRun(notImplemented, first.warnings, first.errors, input, doc) == first
  {
    var walk := PathsTrail(notImplemented, input.paths, doc.paths);
    assert [] + walk.warnings == walk.warnings && [] + walk.errors == walk.errors;
  }

  /**
    The lists an empty doc leaves behind are part of the next call's result: the warning of
    the empty doc comes first.
   */
  lemma EmptyDocWarningCarriedOver(notImplemented: set<string>, input0: Document, input: Document, doc: Document)
    requires |doc.paths| > 0 && !PathsTrail(notImplemented, input.paths, doc.paths).threw
    ensures var before := CompareRun(notImplemented, [], [], input0, Document([]));
      var after := CompareRun(notImplemented, before.warnings, before.errors, input, doc);
      after.outcome.Returned?
      && after.outcome.result.warnings == [EmptyDocWarning] + PathsTrail(notImplemented, input.paths, doc.paths).warnings
  {
  }
}
