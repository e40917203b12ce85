/**
 * The claims of an ID token (packages/issuer-oidc/src/provider.ts): what the provider says itself, and over it what the
 * relying party's exported variables and the requested scopes take from the user's session.
 */
module OidcClaims {
  import Text

  /** The attributes of a session; none when there is no session. */
  type Attributes = map<string, string>

  /** An exported variable: the name of a claim and the attribute it takes. */
  type Variables = seq<(string, string)>

  function ScopeClaims(scope: string): seq<string> {
    if scope == "profile" then
      ["name", "family_name", "given_name", "middle_name", "nickname", "preferred_username", "profile", "picture",
       "website", "gender", "birthdate", "zoneinfo", "locale", "updated_at"]
    else if scope == "email" then ["email", "email_verified"]
    else if scope == "address" then ["address"]
    else if scope == "phone" then ["phone_number", "phone_number_verified"]
    else []
  }

  /** The variables whose attribute the session has. */
  function Exported(vars: Variables, session: Attributes): Attributes {
    if |vars| == 0 then map[]
    else
      var before := Exported(vars[..|vars| - 1], session);
      var (name, attribute) := vars[|vars| - 1];
      if attribute in session then before[name := session[attribute]] else before
  }

  /** The claims of those names that are still missing. */
  function Added(claims: Attributes, session: Attributes, names: seq<string>): Attributes {
    if |names| == 0 then claims
    else
      var before := Added(claims, session, names[..|names| - 1]);
      var name := names[|names| - 1];
      if name !in before && name in session then before[name := session[name]] else before
  }

  function Scoped(claims: Attributes, session: Attributes, scopes: seq<string>): Attributes {
    if |scopes| == 0 then claims
    else Added(Scoped(claims, session, scopes[..|scopes| - 1]), session, ScopeClaims(scopes[|scopes| - 1]))
  }

  function UserClaims(vars: Variables, session: Attributes, scope: string): Attributes {
    Scoped(Exported(vars, session), session, Text.Split(scope, ' '))
  }

  /** `getUserClaims` */
  method GetUserClaims(vars: Variables, session: Attributes, scope: string) returns (claims: Attributes)
    ensures claims == UserClaims(vars, session, scope)
  {
    claims := map[];
    for i := 0 to |vars|
      invariant claims == Exported(vars[..i], session)
    {
      assert vars[..i + 1][..i] == vars[..i];
      var (claimName, sessionAttr) := vars[i];
      if sessionAttr in session {
        claims := claims[claimName := session[sessionAttr]];
      }
    }
    assert vars[..|vars|] == vars;
    var scopes := Text.Split(scope, ' ');
    for i := 0 to |scopes|
      invariant claims == Scoped(Exported(vars, session), session, scopes[..i])
    {
      assert scopes[..i + 1][..i] == scopes[..i];
      ghost var before := claims;
      var names := ScopeClaims(scopes[i]);
      for j := 0 to |names|
        invariant claims == Added(before, session, names[..j])
      {
        assert names[..j + 1][..j] == names[..j];
        if names[j] !in claims && names[j] in session {
          claims := claims[names[j] := session[names[j]]];
        }
      }
      assert names[..|names|] == names;
    }
    assert scopes[..|scopes|] == scopes;
  }

  // ---------------------------------------------------------------- the ID token

  /** What the provider says itself of the user, the client and the request; an empty nonce is left out. */
  function OwnClaims(userId: string, clientId: string, nonce: string): Attributes {
    map["sub" := userId, "aud" := clientId] + (if nonce == "" then map[] else map["nonce" := nonce])
  }

  /** The claims about the user are spread over them. */
  function IdToken(own: Attributes, vars: Variables, session: Attributes, scope: string): Attributes {
    own + UserClaims(vars, session, scope)
  }

  predicate OwnName(name: string) {
    name == "sub" || name == "aud" || name == "nonce"
  }

  /** The keys of a JavaScript object. */
  predicate Distinct(vars: Variables) {
    forall i, j :: 0 <= i < j < |vars| ==> vars[i].0 != vars[j].0
  }

  lemma NotInProfile(name: string)
    requires OwnName(name)
    ensures name !in ScopeClaims("profile")
  {
    var names := ScopeClaims("profile");
    forall i | 0 <= i < |names|
      ensures names[i] != name
    {
      assert |names[i]| !in {3, 5};
    }
  }

  /** No scope brings one of the provider's own claims. */
  lemma ScopesBringOthers(scope: string, name: string)
    requires OwnName(name)
    ensures name !in ScopeClaims(scope)
  {
    if scope == "profile" {
      NotInProfile(name);
    } else if scope == "email" {
      assert "email"[0] == 'e';
    }
  }

  lemma {:induction false} AddedExactly(claims: Attributes, session: Attributes, names: seq<string>, name: string)
    ensures name in Added(claims, session, names) <==> name in claims || (name in names && name in session)
    ensures name in Added(claims, session, names) ==>
              Added(claims, session, names)[name] == if name in claims then claims[name] else session[name]
  {
    if |names| > 0 {
      var n := |names| - 1;
      AddedExactly(claims, session, names[..n], name);
      assert name in names <==> name in names[..n] || name == names[n];
    }
  }

  /** Some of the scopes brings the claim. */
  predicate Brought(scopes: seq<string>, name: string) {
    exists k :: 0 <= k < |scopes| && name in ScopeClaims(scopes[k])
  }

  lemma BroughtByLast(scopes: seq<string>, name: string)
    requires |scopes| > 0
    ensures var n := |scopes| - 1;
            Brought(scopes, name) <==> Brought(scopes[..n], name) || name in ScopeClaims(scopes[n])
  {
    var n := |scopes| - 1;
    if k :| 0 <= k < n && name in ScopeClaims(scopes[k]) {
      assert scopes[..n][k] == scopes[k];
    }
  }

  lemma {:induction false} ScopedExactly(claims: Attributes, session: Attributes, scopes: seq<string>, name: string)
    ensures name in Scoped(claims, session, scopes) <==> name in claims || (Brought(scopes, name) && name in session)
    ensures name in Scoped(claims, session, scopes) ==>
              Scoped(claims, session, scopes)[name] == if name in claims then claims[name] else session[name]
  {
    if |scopes| > 0 {
      var n := |scopes| - 1;
      ScopedExactly(claims, session, scopes[..n], name);
      AddedExactly(Scoped(claims, session, scopes[..n]), session, ScopeClaims(scopes[n]), name);
      BroughtByLast(scopes, name);
    }
  }

  lemma ScopedKeeps(claims: Attributes, session: Attributes, scopes: seq<string>, name: string)
    requires OwnName(name)
    ensures name in Scoped(claims, session, scopes) <==> name in claims
    ensures name in claims ==> Scoped(claims, session, scopes)[name] == claims[name]
  {
    ScopedExactly(claims, session, scopes, name);
    forall k | 0 <= k < |scopes|
      ensures name !in ScopeClaims(scopes[k])
    {
      ScopesBringOthers(scopes[k], name);
    }
  }

  /** The variable sets the claim. */
  predicate Sets(vars: Variables, session: Attributes, name: string, i: int) {
    0 <= i < |vars| && vars[i].0 == name && vars[i].1 in session
  }

  lemma {:induction false} ExportedExactly(vars: Variables, session: Attributes, name: string)
    requires Distinct(vars)
    ensures name in Exported(vars, session) <==> exists i :: Sets(vars, session, name, i)
    ensures forall i :: Sets(vars, session, name, i) ==>
              name in Exported(vars, session) && Exported(vars, session)[name] == session[vars[i].1]
  {
    if |vars| > 0 {
      var n := |vars| - 1;
      ExportedExactly(vars[..n], session, name);
      assert forall i :: 0 <= i < n ==> (Sets(vars, session, name, i) <==> Sets(vars[..n], session, name, i));
      if name in Exported(vars[..n], session) {
        var i :| Sets(vars[..n], session, name, i);
        assert Sets(vars, session, name, i);
      }
      forall i | Sets(vars, session, name, i)
        ensures name in Exported(vars, session) && Exported(vars, session)[name] == session[vars[i].1]
      {
        if i < n {
          assert Sets(vars[..n], session, name, i) && vars[n].0 != name;
        }
      }
    }
  }

  /** The standard claims of section 5.4 of OpenID Connect Core 1.0, scope by scope. */
  predicate StandardClaim(scopes: seq<string>, name: string) {
    || ("profile" in scopes &&
        name in {"name", "family_name", "given_name", "middle_name", "nickname", "preferred_username", "profile",
                 "picture", "website", "gender", "birthdate", "zoneinfo", "locale", "updated_at"})
    || ("email" in scopes && name in {"email", "email_verified"})
    || ("address" in scopes && name == "address")
    || ("phone" in scopes && name in {"phone_number", "phone_number_verified"})
  }

  lemma ScopeBrings(scope: string, name: string)
    ensures name in ScopeClaims(scope) <==> StandardClaim([scope], name)
  {
  }

  lemma BroughtExactly(scopes: seq<string>, name: string)
    ensures Brought(scopes, name) <==> StandardClaim(scopes, name)
  {
    forall k | 0 <= k < |scopes|
      ensures name in ScopeClaims(scopes[k]) <==> StandardClaim([scopes[k]], name)
    {
      ScopeBrings(scopes[k], name);
    }
    StandardOfOne(scopes, name);
  }

  lemma StandardOfOne(scopes: seq<string>, name: string)
    ensures StandardClaim(scopes, name) <==> exists k :: 0 <= k < |scopes| && StandardClaim([scopes[k]], name)
  {
    if StandardClaim(scopes, name) {
      var scope :| scope in scopes && StandardClaim([scope], name);
      var k :| 0 <= k < |scopes| && scopes[k] == scope;
    }
  }

  /**
   * A claim about the user is the attribute of the exported variable of that name, when there is one the session has;
   * else the attribute of its own name, when the session has it and a requested scope brings that claim.
   */
  lemma UserClaimExactly(vars: Variables, session: Attributes, scope: string, name: string)
    requires Distinct(vars)
    ensures var claims := UserClaims(vars, session, scope);
            && (forall i :: Sets(vars, session, name, i) ==> name in claims && claims[name] == session[vars[i].1])
            && ((forall i :: !Sets(vars, session, name, i)) ==>
                  && (name in claims <==> name in session && StandardClaim(Text.Split(scope, ' '), name))
                  && (name in claims ==> claims[name] == session[name]))
  {
    ScopedExactly(Exported(vars, session), session, Text.Split(scope, ' '), name);
    ExportedExactly(vars, session, name);
    BroughtExactly(Text.Split(scope, ' '), name);
  }

  /** The claim of the ID token is the provider's own. */
  predicate Survives(own: Attributes, token: Attributes, name: string) {
    if name in own then name in token && token[name] == own[name] else name !in token
  }

  /**
   * The subject, the audience or the nonce of the ID token is the provider's own exactly when no exported variable of
   * that name takes an attribute the session has, unless it is equal.
   */
  lemma OwnClaimSurvives(own: Attributes, vars: Variables, session: Attributes, scope: string, name: string)
    requires OwnName(name) && Distinct(vars)
    ensures Survives(own, IdToken(own, vars, session, scope), name) <==>
            forall i :: Sets(vars, session, name, i) ==> name in own && session[vars[i].1] == own[name]
  {
    ScopedKeeps(Exported(vars, session), session, Text.Split(scope, ' '), name);
    ExportedExactly(vars, session, name);
  }

  /** A variable that exports the mail address as the subject. */
  lemma SubjectReplaced(userId: string, clientId: string, nonce: string, mail: string, scope: string)
    requires mail != userId
    ensures var token := IdToken(OwnClaims(userId, clientId, nonce), [("sub", "mail")], map["mail" := mail], scope);
            "sub" in token && token["sub"] == mail
  {
    var vars, session := [("sub", "mail")], map["mail" := mail];
    assert Sets(vars, session, "sub", 0);
    ScopedKeeps(Exported(vars, session), session, Text.Split(scope, ' '), "sub");
    ExportedExactly(vars, session, "sub");
  }
}
