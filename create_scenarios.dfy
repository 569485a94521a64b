/** The parameter bags of the request-creation tests, resolved under the
    main type `"request"` with the fields `branch`, `message` and `config`
    declared under the prefix `"request"` and `id` under `"repository"`; and
    a client of the query object that shows what its contracts let a caller
    conclude. */
module CreateSpecExamples {
  import opened Wrappers
  import opened Values
  import opened TravisQuery

  const RequestFields: map<string, string> :=
    Declare(Declare(map[], ["message", "branch", "config"], "request"), ["id"], "repository")

  /** The declared table is the one the tests run against. */
  lemma RequestFieldsTable()
    ensures RequestFields ==
      map["message" := "request", "branch" := "request", "config" := "request", "id" := "repository"]
  {
  }

  /** A bare `branch` is read, because the main type is `request`. */
  lemma BareBranch()
    ensures Resolve(map["branch" := VStr("example")], "request", "request", "branch") == VStr("example")
  {
    assert DottedKey("request", "branch") == "request.branch";
  }

  /** A `request` hash supplies `branch`, and leaves `message` nil although
      a bare lookup would have been allowed. */
  lemma NestedBranch()
    ensures var bag := map["request" := VHash(map["branch" := VStr("example")])];
      && Resolve(bag, "request", "request", "branch") == VStr("example")
      && Resolve(bag, "request", "request", "message") == VNil
  {
    assert DottedKey("request", "branch") == "request.branch";
    assert DottedKey("request", "message") == "request.message";
  }

  /** The dotted key is read, and a mismatching `@type` cannot suppress it. */
  lemma DottedBranch()
    ensures Resolve(map["request.branch" := VStr("example")], "request", "request", "branch") == VStr("example")
    ensures Resolve(map["request.branch" := VStr("example"), "@type" := VStr("repository")],
                    "request", "request", "branch") == VStr("example")
  {
    assert DottedKey("request", "branch") == "request.branch";
  }

  /** A matching `@type` lets the bare key through. */
  lemma TypedBranch()
    ensures Resolve(map["@type" := VStr("request"), "branch" := VStr("example")],
                    "request", "request", "branch") == VStr("example")
  {
    assert DottedKey("request", "branch") == "request.branch";
  }

  /** A wrong `@type` shuts the bare key out, so the caller's default
      (`master`) is used. */
  lemma WrongTypeBranch()
    ensures Resolve(map["@type" := VStr("repository"), "branch" := VStr("example")],
                    "request", "request", "branch") == VNil
  {
    assert DottedKey("request", "branch") == "request.branch";
  }

  /** Setting `id` or a `repository` hash has no effect on the repository id
      captured from the path: the bare `id` belongs to no `repository` type,
      and the captured dotted key outranks the nested hash. */
  lemma CapturedRepositoryId(captured: string)
    ensures Resolve(map["id" := VInt(42)], "request", "repository", "id") == VNil
    ensures Resolve(map["repository.id" := VStr(captured), "id" := VInt(42)],
                    "request", "repository", "id") == VStr(captured)
    ensures Resolve(map["repository.id" := VStr(captured), "repository" := VHash(map["id" := VInt(42)])],
                    "request", "repository", "id") == VStr(captured)
  {
    assert DottedKey("repository", "id") == "repository.id";
  }

  /** A handler reading `branch` twice, overriding it, reading it again, and
      asking for two include hints. */
  method HandlerReads(params: Bag, inspect: Value -> string, v: Value)
      returns (first: Value, second: Value, afterWrite: Value, required: Result<Value, QueryError>, inc: bool, incAgain: bool)
    ensures first == second == Resolve(params, "request", "request", "branch")
    ensures afterWrite == v
    ensures required.Success? <==> Truthy(v)
    ensures inc == incAgain == ("build" in IncludeList(params, inspect))
  {
    var q := new Query(params, "request", RequestFields, inspect);
    RequestFieldsTable();
    first := q.Get("branch");
    second := q.Get("branch");
    q.Set("branch", v);
    afterWrite := q.Get("branch");
    required := q.GetRequired("branch");
    inc := q.Includes("build");
    incAgain := q.Includes("build");
  }
}
