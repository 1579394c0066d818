/** The access rule of the HTTP security chain (`SecurityConfig`): an ordered
    list of path rules, the first matching rule deciding whether a request is
    let through as is or must carry an authenticated principal. The decision
    reads only the request: the chain keeps no session. Whether a request is
    authenticated is decided by a token filter that is not part of this model,
    so it enters here as a plain flag. Paths are the normalized request paths
    the chain sees: no `.` or `..` segments and no empty segments. */
module Security {
  import opened Wrappers

  /** A path pattern: one exact path; a subtree, written in the configuration
      as the base followed by a slash and a double star, which covers the base
      itself and everything below it; or any request at all. */
  datatype Matcher = Exact(path: string) | Subtree(base: string) | AnyRequest

  datatype Access = PermitAll | Authenticated

  datatype Rule = Rule(matchers: seq<Matcher>, access: Access)

  const LoginPath := "/api/login"
  const RegisterPath := "/api/register"
  const SwaggerUi := "/swagger-ui"
  const ApiDocs := "/v3/api-docs"
  const H2Console := "/h2-console"
  const CuentasPath := "/cuentas"

  /** The configured chain, in order. */
  const Rules: seq<Rule> := [
    Rule([Subtree(SwaggerUi), Subtree(ApiDocs), Subtree(H2Console)], PermitAll),
    Rule([Exact(LoginPath)], PermitAll),
    Rule([AnyRequest], Authenticated)
  ]

  /** `path` is `base` or lies below it. A longer name that merely starts
      with `base` (say `/h2-consoles`) is not below it. */
  predicate Under(path: string, base: string) {
    path == base || base + "/" <= path
  }

  predicate Matches(m: Matcher, path: string) {
    match m
    case Exact(p) => path == p
    case Subtree(base) => Under(path, base)
    case AnyRequest => true
  }

  predicate RuleMatches(r: Rule, path: string) {
    exists i | 0 <= i < |r.matchers| :: Matches(r.matchers[i], path)
  }

  /** The access level of the first rule that matches `path`, if any does. */
  function FirstMatch(rules: seq<Rule>, path: string): (a: Option<Access>)
    ensures a.None? <==> forall i | 0 <= i < |rules| :: !RuleMatches(rules[i], path)
    ensures a.Some? ==>
              exists i | 0 <= i < |rules| ::
                && RuleMatches(rules[i], path)
                && rules[i].access == a.value
                && forall j | 0 <= j < i :: !RuleMatches(rules[j], path)
  {
    if rules == [] then None
    else if RuleMatches(rules[0], path) then Some(rules[0].access)
    else
      var rest := FirstMatch(rules[1..], path);
      assert forall i | 1 <= i < |rules| :: rules[i] == rules[1..][i - 1];
      rest
  }

  /** The public surface stated directly: the login path, and the API
      documentation, its UI and the database console with everything below
      them. */
  predicate IsPublic(path: string) {
    || path == LoginPath
    || Under(path, SwaggerUi)
    || Under(path, ApiDocs)
    || Under(path, H2Console)
  }

  datatype Decision = Admit | Reject

  /** The decision for one request, from its path and whether it arrived
      authenticated. */
  function Decide(path: string, authenticated: bool): (d: Decision)
    ensures d == Admit <==> IsPublic(path) || authenticated
  {
    ChainMatchesPublicPaths(path);
    match FirstMatch(Rules, path)
    case Some(PermitAll) => Admit
    case Some(Authenticated) => if authenticated then Admit else Reject
    case None => Reject
  }

  /** The chain's first match permits exactly the public paths and asks for
      authentication everywhere else; the final catch-all rule means some
      rule always matches. */
  lemma ChainMatchesPublicPaths(path: string)
    ensures FirstMatch(Rules, path) == Some(if IsPublic(path) then PermitAll else Authenticated)
  {
    assert Matches(Rules[2].matchers[0], path);
    if Under(path, SwaggerUi) {
      assert Matches(Rules[0].matchers[0], path);
    } else if Under(path, ApiDocs) {
      assert Matches(Rules[0].matchers[1], path);
    } else if Under(path, H2Console) {
      assert Matches(Rules[0].matchers[2], path);
    } else if path == LoginPath {
      assert !RuleMatches(Rules[0], path);
      assert Matches(Rules[1].matchers[0], path);
    } else {
      assert !RuleMatches(Rules[0], path);
      assert !RuleMatches(Rules[1], path);
    }
  }

  /** Logging in needs no token. */
  lemma LoginIsPublic()
    ensures Decide(LoginPath, false) == Admit
  {
  }

  /** Registration is not on the allow-list, so it needs a token. */
  lemma RegisterNeedsAuthentication()
    ensures Decide(RegisterPath, false) == Reject
  {
    assert RegisterPath[1] == 'a' && SwaggerUi[1] == 's' && ApiDocs[1] == 'v' && H2Console[1] == 'h';
    assert RegisterPath[5] != LoginPath[5];
  }

  /** Every account endpoint, `/cuentas` and anything that starts with it,
      needs a token. */
  lemma CuentasNeedAuthentication(path: string)
    requires CuentasPath <= path
    ensures Decide(path, false) == Reject
  {
    assert path[1] == 'c';
    assert LoginPath[1] == 'a' && SwaggerUi[1] == 's' && ApiDocs[1] == 'v' && H2Console[1] == 'h';
    assert !IsPublic(path) by {
      assert path != LoginPath;
      assert !Under(path, SwaggerUi) && !Under(path, ApiDocs) && !Under(path, H2Console) by {
        assert (SwaggerUi + "/")[1] == 's' && (ApiDocs + "/")[1] == 'v' && (H2Console + "/")[1] == 'h';
      }
    }
  }

  /** Everything below an allow-listed tree is public, at any depth. */
  lemma SubtreesArePublic(base: string, rest: string)
    requires base in {SwaggerUi, ApiDocs, H2Console}
    ensures Decide(base + "/" + rest, false) == Admit
  {
    assert base + "/" <= base + "/" + rest;
  }
}
