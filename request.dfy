/** Request matchers of a simulation (src/simulation/request.ts). */
module Request {

  /** A JSON value as `JSON.parse` produces it. Object members keep their order and
      include members no type declares; a number is held as the text JSON prints for it. */
  datatype Json =
    | JNull
    | JBool(b: bool)
    | JNumber(literal: string)
    | JString(s: string)
    | JArray(elements: seq<Json>)
    | JObject(members: seq<(string, Json)>)

  /** No member name occurs twice. */
  predicate DistinctKeys(members: seq<(string, Json)>)
  {
    forall i, j :: 0 <= i < j < |members| ==> members[i].0 != members[j].0
  }

  /** The declared shape of a matcher: a `matcher` strategy name (`exact`, `glob`,
      `regex`, ...) and its `value` operand, both strings, in either order. */
  predicate IsMatcher(v: Json)
  {
    && v.JObject? && |v.members| == 2 && DistinctKeys(v.members)
    && forall m :: m in v.members ==> (m.0 == "matcher" || m.0 == "value") && m.1.JString?
  }

  predicate IsMatcherList(v: Json)
  {
    v.JArray? && forall e :: e in v.elements ==> IsMatcher(e)
  }

  const MatcherListMembers: seq<string> := ["path", "method", "destination", "scheme", "body"]

  /** The value of a declared request-matcher member, or `null`. */
  predicate IsMemberValue(name: string, v: Json)
  {
    || v == JNull
    || (name in MatcherListMembers && IsMatcherList(v))
    || (name == "query" && v.JObject? && DistinctKeys(v.members)
        && forall q :: q in v.members ==> IsMatcherList(q.1))
    || (name == "requiresState" && v.JObject? && DistinctKeys(v.members)
        && forall q :: q in v.members ==> q.1.JString?)
  }

  /** A request matcher: the JSON object the program holds, with its members in their
      order. The signature is computed from this object's JSON text, which depends on
      the member order and on every member, declared or not. */
  datatype RequestMatcher = RequestMatcher(members: seq<(string, Json)>)

  /** The matcher has the declared type: every member is optional and nullable, the five
      matcher lists hold matchers, `query` maps names to matcher lists and
      `requiresState` maps names to strings. Nothing in the program checks this. */
  predicate Conforms(m: RequestMatcher)
  {
    && DistinctKeys(m.members)
    && forall kv :: kv in m.members ==>
         (kv.0 in MatcherListMembers || kv.0 == "query" || kv.0 == "requiresState")
         && IsMemberValue(kv.0, kv.1)
  }

  /** Two matchers of the declared type that differ only in member order are different
      values, so a signature function may, as the real one does, tell them apart. */
  lemma ReorderedMembersDiffer(path: Json, httpMethod: Json)
    requires IsMatcherList(path) && IsMatcherList(httpMethod)
    ensures var a := RequestMatcher([("path", path), ("method", httpMethod)]);
            var b := RequestMatcher([("method", httpMethod), ("path", path)]);
            Conforms(a) && Conforms(b) && a != b
  {
  }

  /** The signature of a request matcher: the hex SHA-256 digest of its JSON text.
      Neither the serialisation nor the hash is modelled, so the signature function is a
      parameter of every operation that uses it, and no property below assumes that two
      matchers with equal signatures are equal. */
  type Signature = RequestMatcher -> string
}
