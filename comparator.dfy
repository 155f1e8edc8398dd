/**
  The comparison engine. One comparator holds the allow-list it was built with and two lists
  of messages that its methods append to as they walk the doc description. Every method is
  proved to append exactly the messages of its counterpart in `Traversal`, and to report
  whether the walk below it threw.
 */
module Comparator {
  import opened Strings
  import opened OpenApi
  import opened Report
  import opened Traversal

  class SpecificationComparator {
    /** `options.NotImplemented` */
    const notImplemented: set<string>

    var warnings: seq<string>
    var errors: seq<string>

    var inputPaths: seq<(string, PathItem)>
    var docPaths: seq<(string, PathItem)>

    constructor (notImplemented: set<string>)
      ensures this.notImplemented == notImplemented
      ensures warnings == [] && errors == []
    {
      this.notImplemented := notImplemented;
      warnings, errors := [], [];
      inputPaths, docPaths := [], [];
    }

    /** The lists hold what they held at `w0`, `e0`, followed by the messages of `t`. */
    ghost predicate Recorded(w0: seq<string>, e0: seq<string>, t: Trail)
      reads this
    {
      warnings == w0 + t.warnings && errors == e0 + t.errors
    }

    method Compare(input: Document, doc: Document) returns (outcome: CompareOutcome)
      modifies this
      ensures inputPaths == input.paths && docPaths == doc.paths
      ensures Run(outcome, warnings, errors) == CompareRun(notImplemented, old(warnings), old(errors), input, doc)
    {
      inputPaths, docPaths := input.paths, doc.paths;
      if |docPaths| == 0 {
        warnings := warnings + [EmptyDocWarning];
        return Returned(CompareResult(warnings, errors));
      }
      var threw := ComparePaths(inputPaths, docPaths);
      if threw {
        return Threw;
      }
      var result := CompareResult(warnings, errors);
      warnings := [];
      errors := [];
      return Returned(result);
    }

    method ComparePaths(inputPaths: seq<(string, PathItem)>, docPaths: seq<(string, PathItem)>) returns (threw: bool)
      modifies this`warnings, this`errors
      ensures Recorded(old(warnings), old(errors), PathsTrail(notImplemented, inputPaths, docPaths))
      ensures threw == PathsTrail(notImplemented, inputPaths, docPaths).threw
    {
      ghost var steps := PathSteps(notImplemented, inputPaths, docPaths);
      threw := false;
      for i := 0 to |docPaths|
        invariant Recorded(old(warnings), old(errors), Fold(steps[..i])) && !Fold(steps[..i]).threw
      {
        ghost var wi, ei := warnings, errors;
        var (path, pathItem) := docPaths[i];
        assert steps[i] == PathStep(notImplemented, inputPaths, path, pathItem);
        var lowerPath := Lower(path);
        if lowerPath in notImplemented {
          warnings := warnings + [path + " is not implemented"];
          FoldAdvance(steps, i, old(warnings), old(errors), wi, ei, warnings, errors);
          continue;
        }
        var inputPathIndex := FirstMatchingPath(inputPaths, lowerPath);
        if inputPathIndex.None? {
          if path in notImplemented {
            warnings := warnings + ["Missing path " + path];
          } else {
            errors := errors + ["Missing path " + path];
          }
          FoldAdvance(steps, i, old(warnings), old(errors), wi, ei, warnings, errors);
          continue;
        }
        var inputPathItem := inputPaths[inputPathIndex.value].1;
        threw := CompareOperations(path, inputPathItem.operations, pathItem.operations, pathItem.parameters);
        FoldAdvance(steps, i, old(warnings), old(errors), wi, ei, warnings, errors);
        if threw {
          FoldHalts(steps, i + 1);
          return;
        }
      }
      assert steps[..|docPaths|] == steps;
    }

    method CompareParameters(path: string, inputParameters: seq<Parameter>, docParameters: seq<Parameter>)
      modifies this`errors
      ensures errors == old(errors) + ParametersTrail(path, inputParameters, docParameters).errors
    {
      ghost var steps := ParameterSteps(path, inputParameters, docParameters);
      for i := 0 to |docParameters|
        invariant errors == old(errors) + Fold(steps[..i]).errors && !Fold(steps[..i]).threw
      {
        var docParam := docParameters[i];
        var docParamNameLower := Lower(docParam.name);
        var inputParam := FindParameter(inputParameters, docParamNameLower);
        FoldPrefix(steps, i);
        if inputParam.None? {
          errors := errors + [MissingParameter(path, docParam.name)];
          continue;
        }
      }
      assert steps[..|docParameters|] == steps;
    }

    method CompareOperations(
      path: string, inputOperations: seq<(Verb, Operation)>,
      docOperations: seq<(Verb, Operation)>, pathParams: seq<Parameter>) returns (threw: bool)
      modifies this`warnings, this`errors
      ensures Recorded(old(warnings), old(errors), OperationsTrail(notImplemented, path, inputOperations, docOperations, pathParams))
      ensures threw == OperationsTrail(notImplemented, path, inputOperations, docOperations, pathParams).threw
    {
      ghost var steps := OperationSteps(notImplemented, path, inputOperations, docOperations, pathParams);
      threw := false;
      for i := 0 to |docOperations|
        invariant Recorded(old(warnings), old(errors), Fold(steps[..i])) && !Fold(steps[..i]).threw
      {
        ghost var wi, ei := warnings, errors;
        var (verb, docOperation) := docOperations[i];
        var typeDisplay := VerbDisplay(verb);
        var inputOperation := Lookup(inputOperations, verb);
        if inputOperation.None? {
          var message := "Missing " + path + " operation: " + typeDisplay;
          if Lower(typeDisplay) + " " + path in notImplemented {
            warnings := warnings + [message];
          } else {
            errors := errors + [message];
          }
          FoldAdvance(steps, i, old(warnings), old(errors), wi, ei, warnings, errors);
          continue;
        }
        var operation := inputOperation.value;
        var operationPath := typeDisplay + " " + path;
        assert steps[i] == MatchedOperationTrail(operationPath, operation, docOperation, pathParams);
        ghost var params := ParametersTrail(operationPath, operation.parameters, docOperation.parameters + pathParams);
        CompareParameters(operationPath, operation.parameters, docOperation.parameters + pathParams);
        ghost var wp, ep := warnings, errors;
        if docOperation.requestBody.Some? {
          if operation.requestBody.None? {
            errors := errors + ["Missing " + operationPath + ": requestBody"];
            ThenAppends(params, Fail("Missing " + operationPath + ": requestBody"), wi, ei, wp, ep, warnings, errors);
            FoldAdvance(steps, i, old(warnings), old(errors), wi, ei, warnings, errors);
            continue;
          }
          threw := CompareRequestBodies(operationPath, operation.requestBody.value, docOperation.requestBody.value);
        }
        ghost var body := BodyPart(operationPath, operation, docOperation);
        ghost var responses := ResponsesPart(operationPath, operation, docOperation);
        assert Recorded(wp, ep, body) && threw == body.threw;
        if threw {
          ThenAppends(params, Then(body, responses), wi, ei, wp, ep, warnings, errors);
          FoldAdvance(steps, i, old(warnings), old(errors), wi, ei, warnings, errors);
          FoldHalts(steps, i + 1);
          return;
        }
        ghost var wb, eb := warnings, errors;
        if docOperation.responses.Some? {
          if operation.responses.None? {
            errors := errors + ["Missing " + operationPath + ": responses"];
          } else {
            threw := CompareResponses(operationPath + " responses", operation.responses.value, docOperation.responses.value);
          }
        }
        assert Recorded(wb, eb, responses) && threw == responses.threw;
        ThenAppends(body, responses, wp, ep, wb, eb, warnings, errors);
        ThenAppends(params, Then(body, responses), wi, ei, wp, ep, warnings, errors);
        FoldAdvance(steps, i, old(warnings), old(errors), wi, ei, warnings, errors);
        if threw {
          FoldHalts(steps, i + 1);
          return;
        }
      }
      assert steps[..|docOperations|] == steps;
    }

    method CompareRequestBodies(path: string, inputBody: RequestBody, docBody: RequestBody) returns (threw: bool)
      modifies this`warnings, this`errors
      ensures Recorded(old(warnings), old(errors), BodyTrail(path, inputBody, docBody))
      ensures threw == BodyTrail(path, inputBody, docBody).threw
    {
      threw := CompareContents(path + " body", inputBody.content, docBody.content);
    }

    method CompareContents(path: string, inputContents: seq<(string, MediaType)>, docContents: seq<(string, MediaType)>)
      returns (threw: bool)
      modifies this`warnings, this`errors
      ensures Recorded(old(warnings), old(errors), ContentTrail(path, inputContents, docContents))
      ensures threw == ContentTrail(path, inputContents, docContents).threw
    {
      var docMediaType := Lookup(docContents, JsonApplication);
      if docMediaType.None? {
        return false;
      }
      var inputMediaType := Lookup(inputContents, JsonApplication);
      if inputMediaType.None? {
        errors := errors + ["Missing " + JsonApplication + " mediatype for " + path];
        return false;
      }
      // CompareSchemas reads the type of both schemas first: an absent one throws there.
      if inputMediaType.value.schema.None? || docMediaType.value.schema.None? {
        return true;
      }
      threw := CompareSchemas(path, inputMediaType.value.schema.value, docMediaType.value.schema.value);
    }

    method CompareSchemas(path: string, inputSchema: Schema, docSchema: Schema) returns (threw: bool)
      modifies this`warnings, this`errors
      ensures Recorded(old(warnings), old(errors), SchemaTrail(path, inputSchema, docSchema))
      ensures threw == SchemaTrail(path, inputSchema, docSchema).threw
      decreases docSchema, 0
    {
      CompareTypes(path, inputSchema.typeName, docSchema.typeName);
      if docSchema.typeName == "" {
        warnings := warnings + [path + CombinatorNotice];
      }
      threw := false;
      if docSchema.typeName == "array" {
        // The nested call reads the type of both item schemas first: an absent one throws there.
        if inputSchema.items.None? || docSchema.items.None? {
          return true;
        }
        threw := CompareSchemas(path + " -> array", inputSchema.items.value, docSchema.items.value);
      } else if docSchema.typeName == "object" {
        var schemaTitle := SchemaTitle(docSchema);
        var schemaPath := if schemaTitle.Some? && schemaTitle.value != "" then path + " -> " + schemaTitle.value else path;
        assert schemaPath == ObjectScope(path, docSchema);
        threw := CompareProperties(schemaPath, inputSchema.properties, docSchema.properties);
      }
    }

    method CompareTypes(path: string, inputType: string, docType: string)
      modifies this`errors
      ensures errors == old(errors) + TypeTrail(path, inputType, docType).errors
    {
      if docType == "" {
        return;
      }
      if inputType == docType || (docType == "number" && inputType == "integer") {
        return;
      }
      errors := errors + [TypeMismatch(path, inputType, docType)];
    }

    method CompareProperties(path: string, inputProperties: Properties, docProperties: Properties) returns (threw: bool)
      modifies this`warnings, this`errors
      ensures Recorded(old(warnings), old(errors), PropertiesTrail(path, inputProperties, docProperties))
      ensures threw == PropertiesTrail(path, inputProperties, docProperties).threw
      decreases docProperties, 1
    {
      ghost var steps := PropertySteps(path, inputProperties, docProperties);
      threw := false;
      for i := 0 to |docProperties.entries|
        invariant Recorded(old(warnings), old(errors), Fold(steps[..i])) && !Fold(steps[..i]).threw
      {
        ghost var wi, ei := warnings, errors;
        var (name, docSchema) := docProperties.entries[i];
        var inputSchema := Lookup(inputProperties.entries, name);
        assert steps[i] == PropertyStep(path, inputProperties, name, docSchema);
        if inputSchema.None? {
          errors := errors + ["Missing " + path + " property: " + name];
          FoldAdvance(steps, i, old(warnings), old(errors), wi, ei, warnings, errors);
          continue;
        }
        threw := CompareSchemas(path + " -> " + name, inputSchema.value, docSchema);
        FoldAdvance(steps, i, old(warnings), old(errors), wi, ei, warnings, errors);
        if threw {
          FoldHalts(steps, i + 1);
          return;
        }
      }
      assert steps[..|docProperties.entries|] == steps;
    }

    method CompareResponses(path: string, inputResponses: seq<(string, Response)>, docResponses: seq<(string, Response)>)
      returns (threw: bool)
      modifies this`warnings, this`errors
      ensures Recorded(old(warnings), old(errors), ResponsesTrail(path, inputResponses, docResponses))
      ensures threw == ResponsesTrail(path, inputResponses, docResponses).threw
    {
      ghost var steps := ResponseSteps(path, inputResponses, docResponses);
      threw := false;
      for i := 0 to |docResponses|
        invariant Recorded(old(warnings), old(errors), Fold(steps[..i])) && !Fold(steps[..i]).threw
      {
        ghost var wi, ei := warnings, errors;
        var (code, docResponse) := docResponses[i];
        assert steps[i] == ResponseStep(path, inputResponses, code, docResponse);
        if !StartsWith(code, "2") {
          FoldAdvance(steps, i, old(warnings), old(errors), wi, ei, warnings, errors);
          continue;
        }
        var inputResponse := Lookup(inputResponses, code);
        if inputResponse.None? {
          errors := errors + ["Missing " + path + " response: " + code];
          FoldAdvance(steps, i, old(warnings), old(errors), wi, ei, warnings, errors);
          continue;
        }
        threw := CompareContents(path + " " + code, inputResponse.value.content, docResponse.content);
        FoldAdvance(steps, i, old(warnings), old(errors), wi, ei, warnings, errors);
        if threw {
          FoldHalts(steps, i + 1);
          return;
        }
      }
      assert steps[..|docResponses|] == steps;
    }
  }
}
