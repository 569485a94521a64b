/** The parameter-resolution object of the V3 API (`Travis::API::V3::Query`).
    A query is built from a request's parameter bag and the main resource
    type of the matched route.  Every subclass declares its fields, each under
    a prefix (a resource type name); for each declared field the query offers
    a memoising reader, a writer and a required reader.  Beside those it
    offers the `include` hint test and two coercions. */
module TravisQuery {
  import opened Wrappers
  import opened Values
  import opened RubyText

  /** `WrongParams`, the client-input error.  The required reader raises it
      with a message; `user_condition` raises it with the class's default
      message, represented by `None`. */
  datatype QueryError = WrongParams(message: Option<string>)

  /** The condition hash `user_condition` returns: `{login: ...}` or
      `{id: ...}`. */
  datatype Condition = ByLogin(login: string) | ById(id: int)

  // ---- Field declarations ----

  /** The fully qualified bag key of a field, `"prefix.name"`. */
  function DottedKey(prefix: string, name: string): string {
    prefix + "." + name
  }

  /** `params :a, :b, prefix: p` on a field table mapping each declared name
      to its prefix.  Each name gets its own accessor, generated one after the
      other, so a name declared again takes the newest prefix. */
  function Declare(table: map<string, string>, names: seq<string>, prefix: string): (r: map<string, string>)
    ensures r.Keys == table.Keys + (set n | n in names)
    ensures forall n :: n in names ==> r[n] == prefix
    ensures forall n :: n in table && n !in names ==> r[n] == table[n]
    decreases |names|
  {
    if names == [] then table
    else Declare(table[names[0] := prefix], names[1..], prefix)
  }

  // ---- The four-tier lookup ----

  /** The type bare names are read under: the bag's `"@type"` entry when it
      is truthy, else the main type. */
  function EffectiveType(params: Bag, mainType: string): Value {
    var explicit := Lookup(params, "@type");
    if Truthy(explicit) then explicit else VStr(mainType)
  }

  /** The value a field `name` declared under `prefix` resolves to: the dotted
      key if present (even with value nil), else the entry of a nested hash
      stored under the prefix, else the bare key when the effective type is
      the prefix, else nil. */
  function Resolve(params: Bag, mainType: string, prefix: string, name: string): Value {
    var dotted := DottedKey(prefix, name);
    if dotted in params then params[dotted]
    else if prefix in params && params[prefix].VHash? then Lookup(params[prefix].entries, name)
    else if EffectiveType(params, mainType) == VStr(prefix) then Lookup(params, name)
    else VNil
  }

  /** Tier 1: a present dotted key decides the value, whatever else the bag
      holds and whatever the main type is. */
  lemma DottedKeyWins(params: Bag, mainType: string, prefix: string, name: string, v: Value)
    ensures Resolve(params[DottedKey(prefix, name) := v], mainType, prefix, name) == v
  {
  }

  /** Tier 2: without a dotted key, a nested hash under the prefix decides the
      value, nil when it lacks the name; neither the bare key, nor `"@type"`,
      nor the main type is consulted. */
  lemma NestedHashWins(params: Bag, mainType: string, otherType: string, prefix: string, name: string, bare: Value)
    requires DottedKey(prefix, name) !in params
    requires prefix in params && params[prefix].VHash?
    ensures Resolve(params, mainType, prefix, name) == Lookup(params[prefix].entries, name)
    ensures Resolve(params, otherType, prefix, name) == Lookup(params[prefix].entries, name)
    ensures name != prefix ==>
      Resolve(params[name := bare], otherType, prefix, name) == Lookup(params[prefix].entries, name)
  {
    assert |DottedKey(prefix, name)| > |name|;
  }

  /** Tier 3: with neither a dotted key nor a nested hash, the bare key is
      read exactly when the effective type is the prefix. */
  lemma BareKeyWhenTypeMatches(params: Bag, mainType: string, prefix: string, name: string)
    requires DottedKey(prefix, name) !in params
    requires !(prefix in params && params[prefix].VHash?)
    requires EffectiveType(params, mainType) == VStr(prefix)
    ensures Resolve(params, mainType, prefix, name) == Lookup(params, name)
  {
  }

  /** Tier 4 fails closed: with neither a dotted key nor a nested hash and a
      different effective type, the value is nil even when the bag carries a
      bare key of that name. */
  lemma ForeignTypeGivesNil(params: Bag, mainType: string, prefix: string, name: string, bare: Value)
    requires DottedKey(prefix, name) !in params
    requires !(prefix in params && params[prefix].VHash?)
    requires EffectiveType(params, mainType) != VStr(prefix)
    ensures Resolve(params, mainType, prefix, name) == VNil
    ensures name != prefix && name != "@type" ==>
      Resolve(params[name := bare], mainType, prefix, name) == VNil
  {
    assert |DottedKey(prefix, name)| > |name|;
    if name != "@type" {
      assert EffectiveType(params[name := bare], mainType) == EffectiveType(params, mainType);
    }
  }

  /** A truthy `"@type"` overrides the main type; only a missing, nil or
      false one falls back to it.  A non-string `"@type"` matches no prefix. */
  lemma EffectiveTypeChoice(params: Bag, mainType: string, prefix: string)
    ensures Truthy(Lookup(params, "@type")) ==>
      (EffectiveType(params, mainType) == VStr(prefix) <==> params["@type"] == VStr(prefix))
    ensures !Truthy(Lookup(params, "@type")) ==>
      (EffectiveType(params, mainType) == VStr(prefix) <==> mainType == prefix)
  {
  }

  /** Where a resolved value can come from: it is nil, or the dotted entry,
      or an entry of the nested hash, or the bare entry under a matching
      type.  No other key of the bag can supply it. */
  lemma ResolveProvenance(params: Bag, mainType: string, prefix: string, name: string)
    ensures var r := Resolve(params, mainType, prefix, name);
      || r == VNil
      || (DottedKey(prefix, name) in params && r == params[DottedKey(prefix, name)])
      || (prefix in params && params[prefix].VHash? && name in params[prefix].entries
          && r == params[prefix].entries[name])
      || (EffectiveType(params, mainType) == VStr(prefix) && name in params && r == params[name])
  {
  }

  /** Resolution reads four keys only: bags that agree on the dotted key, the
      prefix, `"@type"` and the bare name resolve the field alike. */
  lemma ResolveDependsOnFourKeys(p: Bag, q: Bag, mainType: string, prefix: string, name: string)
    requires forall k :: k in {DottedKey(prefix, name), prefix, "@type", name} ==>
      (k in p <==> k in q) && (k in p ==> p[k] == q[k])
    ensures Resolve(p, mainType, prefix, name) == Resolve(q, mainType, prefix, name)
  {
    assert DottedKey(prefix, name) in {DottedKey(prefix, name), prefix, "@type", name};
    assert prefix in {DottedKey(prefix, name), prefix, "@type", name};
    assert "@type" in {DottedKey(prefix, name), prefix, "@type", name};
    assert name in {DottedKey(prefix, name), prefix, "@type", name};
  }

  // ---- Required reader ----

  /** `name!`: the reader's value when it is truthy, otherwise `WrongParams`
      naming the qualified field. */
  function Require(v: Value, prefix: string, name: string): Result<Value, QueryError> {
    if Truthy(v) then Success(v)
    else Failure(WrongParams(Some("missing " + DottedKey(prefix, name))))
  }

  /** The required reader passes the value through exactly when it is not nil
      or false, and the error names the field.  This is not `bool`: the
      string `"false"` passes the required reader although `bool` maps it to
      false. */
  lemma RequireOutcome(v: Value, prefix: string, name: string)
    ensures Require(v, prefix, name).Success? <==> (Bool(v) || v == VStr("false"))
    ensures Require(v, prefix, name).Success? ==> Require(v, prefix, name).value == v
    ensures Require(v, prefix, name).Failure? ==>
      Require(v, prefix, name).error.message == Some("missing " + prefix + "." + name)
  {
    assert "missing " + DottedKey(prefix, name) == "missing " + prefix + "." + name;
  }

  // ---- Coercions ----

  /** `bool(value)`. */
  function Bool(v: Value): bool {
    if v == VStr("false") then false else Truthy(v)
  }

  /** `bool` answers false for exactly three values: the string `"false"`,
      nil and false; the empty string, `"0"`, zero and `"FALSE"` are true. */
  lemma BoolFalseExactly(v: Value)
    ensures !Bool(v) <==> v in {VStr("false"), VNil, VBool(false)}
    ensures Bool(VStr("")) && Bool(VStr("0")) && Bool(VInt(0)) && Bool(VStr("FALSE"))
  {
  }

  /** `user_condition(value)`. */
  function UserCondition(v: Value): Result<Condition, QueryError> {
    match v
    case VStr(s) => Success(ByLogin(s))
    case VInt(i) => Success(ById(i))
    case VUser(u) => Success(ById(u.id))
    case _ => Failure(WrongParams(None))
  }

  /** Whether a user record meets a condition. */
  predicate Selects(c: Condition, u: User) {
    match c
    case ByLogin(l) => u.login == l
    case ById(i) => u.id == i
  }

  /** The three accepted shapes of a user reference, and only those, give a
      condition; each of them, built from a user, selects that user. */
  lemma UserConditionShapes(v: Value, u: User)
    ensures UserCondition(v).Success? <==> (v.VStr? || v.VInt? || v.VUser?)
    ensures UserCondition(v).Failure? ==> UserCondition(v).error == WrongParams(None)
    ensures Selects(UserCondition(VUser(u)).value, u)
    ensures Selects(UserCondition(VInt(u.id)).value, u)
    ensures Selects(UserCondition(VStr(u.login)).value, u)
    ensures UserCondition(VUser(u)) == Success(ById(u.id)) == UserCondition(VInt(u.id))
    ensures UserCondition(VStr(u.login)) == Success(ByLogin(u.login))
    ensures forall w :: Selects(UserCondition(VUser(u)).value, w) <==> w.id == u.id
  {
  }

  // ---- The include hint ----

  /** Ruby's `to_s` on a parameter value.  Hashes and user objects render via
      `inspect`, a parameter of the model. */
  function ToText(v: Value, inspect: Value -> string): string {
    match v
    case VStr(s) => s
    case VNil => ""
    case VBool(b) => if b then "true" else "false"
    case VInt(i) => IntToS(i)
    case _ => inspect(v)
  }

  /** `@params['include'].to_s.split(',')`. */
  function IncludeList(params: Bag, inspect: Value -> string): seq<string> {
    Split(ToText(Lookup(params, "include"), inspect), ',')
  }

  /** A non-empty key is included exactly when it is one of the
      comma-separated fields of the `include` entry; without an `include`
      entry nothing is; an integer `include` is the one field of its digits. */
  lemma IncludeListMeaning(params: Bag, inspect: Value -> string, key: string)
    ensures key != "" ==>
      (key in IncludeList(params, inspect) <==> key in Fields(ToText(Lookup(params, "include"), inspect), ','))
    ensures "include" !in params ==> IncludeList(params, inspect) == []
    ensures "include" in params && params["include"].VInt? ==>
      IncludeList(params, inspect) == [IntToS(params["include"].i)]
  {
    if key != "" {
      SplitMembership(ToText(Lookup(params, "include"), inspect), ',', key);
    }
    if "include" !in params {
      SplitWithoutSeparator("", ',');
    }
    if "include" in params && params["include"].VInt? {
      var s := IntToS(params["include"].i);
      assert forall k | 0 <= k < |s| :: s[k] != ',';
      SplitWithoutSeparator(s, ',');
    }
  }

  // ---- The query object ----

  /** One query object, alive for one request.  `memo` holds the instance
      variables the readers and writers set, keyed by field name (the
      instance variable `@name`; a name present is a name `defined?`, even
      with value nil); `includes` is `@includes`.  `written` is the set of
      names a writer has set, whose memo need not agree with the bag. */
  class Query {
    const params: Bag
    const mainType: string
    const fields: map<string, string>
    const inspect: Value -> string
    var memo: map<string, Value>
    var includes: Option<seq<string>>
    ghost var written: set<string>

    ghost predicate Valid()
      reads this
    {
      && memo.Keys <= fields.Keys
      && written <= memo.Keys
      && (forall n :: n in memo && n !in written ==> memo[n] == Resolve(params, mainType, fields[n], n))
      && (includes.Some? ==> includes.value == IncludeList(params, inspect))
    }

    /** What the reader of `name` returns if called now. */
    ghost function Current(name: string): (v: Value)
      reads this
      requires Valid() && name in fields
      ensures name !in written ==> v == Resolve(params, mainType, fields[name], name)
    {
      if name in memo then memo[name] else Resolve(params, mainType, fields[name], name)
    }

    /** `Query.new(params, main_type)` of a subclass whose declared fields are
        `fields`. */
    constructor (params: Bag, mainType: string, fields: map<string, string>, inspect: Value -> string)
      ensures Valid()
      ensures this.params == params && this.mainType == mainType
      ensures this.fields == fields && this.inspect == inspect
      ensures memo == map[] && includes == None && written == {}
    {
      this.params := params;
      this.mainType := mainType;
      this.fields := fields;
      this.inspect := inspect;
      memo := map[];
      includes := None;
      written := {};
    }

    /** The reader: the memoised value if the field was read or written
        before, else the resolved value, which is memoised. */
    method Get(name: string) returns (v: Value)
      requires Valid() && name in fields
      modifies this`memo
      ensures Valid()
      ensures name in old(memo) ==> v == old(memo[name])
      ensures name !in old(written) ==> v == Resolve(params, mainType, fields[name], name)
      ensures memo == old(memo)[name := v]
    {
      if name in memo {
        v := memo[name];
        return;
      }
      v := Resolve(params, mainType, fields[name], name);
      memo := memo[name := v];
    }

    /** The writer: later reads return `v`. */
    method Set(name: string, v: Value)
      requires Valid() && name in fields
      modifies this`memo, this`written
      ensures Valid()
      ensures memo == old(memo)[name := v] && written == old(written) + {name}
      ensures Current(name) == v
    {
      memo := memo[name := v];
      written := written + {name};
    }

    /** The required reader `name!`: reads (and so memoises) the field, then
        fails when the value is nil or false. */
    method GetRequired(name: string) returns (r: Result<Value, QueryError>)
      requires Valid() && name in fields
      modifies this`memo
      ensures Valid()
      ensures memo == old(memo)[name := old(Current(name))]
      ensures r.Success? <==> Truthy(old(Current(name)))
      ensures r.Success? ==> r.value == old(Current(name))
      ensures r.Failure? ==> r.error == WrongParams(Some("missing " + DottedKey(fields[name], name)))
    {
      var v := Get(name);
      r := Require(v, fields[name], name);
    }

    /** `includes?(key)`: splits the `include` entry on first use and keeps
        the list. */
    method Includes(key: string) returns (b: bool)
      requires Valid()
      modifies this`includes
      ensures Valid()
      ensures includes == Some(IncludeList(params, inspect))
      ensures b <==> key in IncludeList(params, inspect)
    {
      if includes.None? {
        includes := Some(IncludeList(params, inspect));
      }
      b := key in includes.value;
    }
  }
}
