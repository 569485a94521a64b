/** The values a request's parameter bag can hold.  A bag is what the
    dispatcher hands to a query object: path captures, query string and
    body merged into one string-keyed map. */
module Values {

  /** A user record as far as the parameter layer sees it: `user_condition`
      only ever reads its id; the login is what a login condition matches. */
  datatype User = User(id: int, login: string)

  /** One parameter value: a string, an integer, a boolean, nil, a nested
      hash (a JSON object in the body) or an already loaded user. */
  datatype Value =
    | VStr(s: string)
    | VInt(i: int)
    | VBool(b: bool)
    | VNil
    | VHash(entries: map<string, Value>)
    | VUser(user: User)

  type Bag = map<string, Value>

  /** Ruby truthiness: everything except nil and false. */
  predicate Truthy(v: Value) {
    v != VNil && v != VBool(false)
  }

  /** `hash[key]`: the entry, or nil when the key is absent. */
  function Lookup(m: map<string, Value>, key: string): Value {
    if key in m then m[key] else VNil
  }
}
