# Parameter resolution of the Travis CI V3 API

This project models `Travis::API::V3::Query` in Dafny. A query object is built for one request from two inputs:

- the request's parameter bag: path captures, query string and body, merged into one string-keyed map;
- the main resource type of the matched route.

Each query subclass declares fields, each under a prefix. For every declared field the query has three accessors:

- a reader, which memoises its result;
- a writer;
- a required reader `name!`.

The reader resolves a field in four tiers:

1. the dotted key `"prefix.name"`, when it is present (even with value nil);
2. else the `name` entry of a hash stored under `prefix`;
3. else the bare key `name`, read only when the effective type equals the prefix; the effective type is a truthy `"@type"` entry, or failing that the main type;
4. else nil.

The query also offers three helpers:

- `includes?`, a memoised test against the comma-separated `include` parameter;
- `bool`, the query layer's boolean coercion;
- `user_condition`, which turns a login, an id or a user into a lookup condition.

Files:

- `wrappers.dfy`: `Option` and `Result`.
- `values.dfy`: the parameter values (`Value`), the bag, Ruby truthiness and `hash[key]`.
- `ruby_text.dfy`: Ruby's `String#split(',')` and `Integer#to_s`. Split drops trailing empty fields, so the empty string splits into no fields.
- `query.dfy`: the tier lookup (`Resolve`), the field table (`Declare`), the coercions, and the class `Query`. The class holds the memo of field values (`memo`, Ruby's `@name` instance variables keyed by name) and the memoised include list (`includes`). A ghost set `written` records which fields a writer has set. `Valid()` says that every memoised field that was not written holds exactly the tier-lookup value.
- `create_scenarios.dfy`: the parameter bags of the request-creation tests, resolved, and a client method that reads, writes and re-reads a field.

Two facts about the required reader:

- It raises `WrongParams` with message `missing prefix.name` (lib/travis/api/v3/query.rb:18).
- It fails only for nil and false. So it accepts the string `"false"`, which `bool` maps to false. `RequireOutcome` states the difference.

The request-creation scenarios use a field table and a main type that the test file does not show; both are inferred:

- The fields `message`, `branch` and `config` under `request`, and `id` under `repository`, come from the payload keys the tests expect.
- The main type `request` comes from the bare-`branch` test, which passes only when the effective type is `request`.

## Model

| member | source | states |
|---|---|---|
| TravisQuery.Declare | lib/travis/api/v3/query.rb:22-25 | declaring names under a prefix maps every listed name to that prefix and leaves every other declared name's prefix unchanged; a name declared again takes the newest prefix |
| TravisQuery.DottedKeyWins | lib/travis/api/v3/query.rb:11 | if the bag holds the dotted key, the field resolves to that entry, whatever else the bag holds and whatever the main type is |
| TravisQuery.NestedHashWins | lib/travis/api/v3/query.rb:12 | without a dotted key, a hash under the prefix decides: the result is its `name` entry, or nil if that entry is absent; the main type changes nothing, and neither does a bare key (when the name differs from the prefix) |
| TravisQuery.BareKeyWhenTypeMatches | lib/travis/api/v3/query.rb:13 | with neither a dotted key nor a nested hash, and an effective type equal to the prefix, the field resolves to the bare entry (nil if absent) |
| TravisQuery.ForeignTypeGivesNil | lib/travis/api/v3/query.rb:13-14 | with neither a dotted key nor a nested hash, and a different effective type, the field is nil; adding a bare key of that name keeps it nil (when the name is neither the prefix nor `@type`) |
| TravisQuery.EffectiveTypeChoice | lib/travis/api/v3/query.rb:13 | a truthy `@type` alone decides whether bare keys are read (a non-string one matches no prefix); a missing, nil or false one defers to the main type |
| TravisQuery.ResolveProvenance | lib/travis/api/v3/query.rb:11-14 | a resolved value is nil, the dotted entry, a nested-hash entry, or the bare entry under a matching type, and nothing else |
| TravisQuery.ResolveDependsOnFourKeys | lib/travis/api/v3/query.rb:11-13 | two bags that agree on the dotted key, the prefix, `@type` and the bare name resolve the field alike |
| TravisQuery.RequireOutcome | lib/travis/api/v3/query.rb:17-19 | the required reader returns the value exactly when it is neither nil nor false (so also for `"false"`, unlike `bool`); otherwise it fails with `missing prefix.name` |
| TravisQuery.BoolFalseExactly | lib/travis/api/v3/query.rb:43-46 | `bool` is false exactly for `"false"`, nil and false; `""`, `"0"`, `0` and `"FALSE"` give true |
| TravisQuery.UserConditionShapes | lib/travis/api/v3/query.rb:48-55 | a string, an integer or a user gives a condition and every other value gives `WrongParams`; a user gives the id condition `{id: u.id}`, the same as its id gives, and it selects exactly the users with that id; a login gives the login condition; each of the three selects that user |
| TravisQuery.IncludeListMeaning | lib/travis/api/v3/query.rb:39-40 | a non-empty key is included exactly when it is a comma-separated field of the `include` entry; no `include` entry means nothing is included; an integer entry is the single field of its digits |
| TravisQuery.Query.constructor | lib/travis/api/v3/query.rb:27-32 | a new query keeps the bag and the main type, and has no memoised field and no include list |
| TravisQuery.Query.Current | lib/travis/api/v3/query.rb:10-14 | until a field is written, what its reader returns is the tier-lookup value |
| TravisQuery.Query.Get | lib/travis/api/v3/query.rb:9-15 | a field already read or written returns its memoised value, even nil; any other field resolves by the tiers; the value is memoised and nothing else changes |
| TravisQuery.Query.Set | lib/travis/api/v3/query.rb:7 | the writer memoises the given value, so later reads return exactly it; the memo keeps its invariant |
| TravisQuery.Query.GetRequired | lib/travis/api/v3/query.rb:17-19 | `name!` reads the field, which memoises it, and returns the value when truthy; otherwise it fails with `WrongParams("missing prefix.name")` |
| TravisQuery.Query.Includes | lib/travis/api/v3/query.rb:38-41 | the include list is computed from the bag on first use and kept; the answer is membership in that list, so repeated calls agree |
| RubyText.Fields | lib/travis/api/v3/query.rb:39 | splitting gives at least one field, and no field contains the separator |
| RubyText.DropTrailingEmpty | lib/travis/api/v3/query.rb:39 | the result is a prefix of the fields; it does not end in an empty field; every field it drops is empty |
| RubyText.JoinFields | lib/travis/api/v3/query.rb:39 | joining the fields of a string with the separator gives back the string |
| RubyText.FieldsJoin | lib/travis/api/v3/query.rb:39 | splitting the join of separator-free fields gives back the fields |
| RubyText.SplitMembership | lib/travis/api/v3/query.rb:39-40 | a non-empty key is in the split exactly when it is one of the raw fields |
| RubyText.SplitEmptyMember | lib/travis/api/v3/query.rb:39-40 | the empty key is in the split exactly when an empty field comes before some non-empty field |
| RubyText.SplitWithoutSeparator | lib/travis/api/v3/query.rb:39 | a separator-free text splits into itself alone; the empty text splits into nothing |
| RubyText.IntToS | lib/travis/api/v3/query.rb:39 | `to_s` of an integer is one or more decimal digits, preceded by a minus sign exactly when the integer is negative; a minus sign appears nowhere else |
| RubyText.NatToDigits | lib/travis/api/v3/query.rb:39 | the digits of a natural number are decimal digits with no leading zero |
| RubyText.NatToDigitsValue | lib/travis/api/v3/query.rb:39 | the digits of a natural number denote that number |
| RubyText.IntToSValue | lib/travis/api/v3/query.rb:39 | `to_s` of an integer is its decimal numeral, with a leading minus sign when negative and no leading zero (only zero itself starts with `0`) |
| CreateSpecExamples.RequestFieldsTable | lib/travis/api/v3/query.rb:22-25 | two declarations build the field table the request-creation tests run against |
| CreateSpecExamples.BareBranch | spec/v3/services/requests/create_spec.rb:161-170 | a bare `branch` is read under main type `request` |
| CreateSpecExamples.NestedBranch | spec/v3/services/requests/create_spec.rb:172-181 | a `request` hash supplies `branch`, and leaves `message` nil |
| CreateSpecExamples.DottedBranch | spec/v3/services/requests/create_spec.rb:183-192 | `request.branch` is read, as the test expects; a second, extra case adds a mismatching `@type`, which does not change the result |
| CreateSpecExamples.TypedBranch | spec/v3/services/requests/create_spec.rb:194-203 | `@type` equal to `request` lets the bare `branch` through |
| CreateSpecExamples.WrongTypeBranch | spec/v3/services/requests/create_spec.rb:205-214 | `@type` equal to `repository` makes `branch` nil, so the caller's default applies |
| CreateSpecExamples.CapturedRepositoryId | spec/v3/services/requests/create_spec.rb:106-126 | a bare `id` or a `repository` hash cannot displace the captured `repository.id` |
| CreateSpecExamples.HandlerReads | lib/travis/api/v3/query.rb:7-19 | two reads agree with the tier lookup, a read after a write returns the written value, and two include tests agree |

## Left out

- `perform_async` and the `Sidekiqs` registry (lib/travis/api/v3/query.rb:34-36) call a background job queue, which is outside this model.
- `@@sidekiq_cache` (lib/travis/api/v3/query.rb:3) is thread-local state and is not modelled.
- The `class_eval` template and the default prefix derived from the class name (lib/travis/api/v3/query.rb:22-25) are not modelled. Every declaration gives its prefix explicitly, and the declared fields are passed to the constructor as a table.
- The route table `lib/travis/api/v3/routes.rb` and its DSL are not part of this model.
- Ruby's `to_s` on a hash or a user object (its `inspect` text, which can include an object address) is not modelled. It is a parameter `inspect` of the query.
- Values other than strings, integers, booleans, nil, hashes and users are not modelled: floats, arrays and symbols.
- The bag is immutable in the model. Ruby shares the hash with the caller, who could change it after a read. So the memo differs from a fresh lookup only after a write.
- Query.Get, Query.Set and Query.GetRequired require a declared field name. Calling an undeclared accessor is a `NoMethodError` in Ruby, not a behaviour of the query.
- A declared field whose name equals another instance variable of the query (`params`, `main_type`, `includes`) would share that variable in Ruby. The model keeps the field memo separate.
- Query.constructor takes the main type as a string. It does not model the `main_type.to_s` of lib/travis/api/v3/query.rb:31, which turns a symbol or nil into a string.
- The `WrongParams` raised by `user_condition` has no message in the source. Its default message belongs to the error class, which is not part of this model; `None` stands for it.
