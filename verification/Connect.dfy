/**
 Connection tokens: a token for connecting to a user carries the token it was delegated from inside
 itself, down to one the user issued.
 */
module Connect {
  import opened Wrappers
  import opened Ucan

  function ConnectUri(domain: string, user: string): string {
    domain + ":user-connect:" + user
  }

  function ShareUri(domain: string, user: string): string {
    domain + ":user-share:" + user
  }

  /** The target user's own token for a first holder. */
  function DelegationAndConnectionToken(target: Key, user: string, holder: Key, domain: string): Token {
    Token(KeyDid(target), KeyDid(holder),
          [Capability(ConnectUri(domain, user), "use"), Capability(ShareUri(domain, user), "use")], Absent, NoProof, true)
  }

  /** The next token: witnessed by the parent's CID and carrying the parent itself. */
  function DelegatedConnectionToken(delegator: Key, user: string, holder: Key, domain: string, parent: Token): Token {
    Token(KeyDid(delegator), KeyDid(holder), [Capability(ConnectUri(domain, user), "use")], Listed([CidOf(parent)]),
          Proof(Encoded(parent)), true)
  }

  predicate IsOneTimeConnectToken(u: Token, domain: string) {
    && u.audience == OtherDid("*")
    && exists i :: 0 <= i < |u.capabilities| && domain + ":user-connect" <= u.capabilities[i].resource && u.capabilities[i].ability == "use"
  }

  /** `expected` is the issuer of the token this one is embedded in. */
  function ValidateEmbeddedProofChain(text: TokenText, user: string, target: Key, domain: string, expected: Option<Did>): Outcome
    decreases text
  {
    if !WellFormed(text) then Failure(InvalidStructure)
    else
      var u := text.token;
      if expected.Some? && u.audience != expected.value then Failure(InvalidIssuer)
      else if !FirstCovering(u.capabilities, ConnectUri(domain, user), "use") then Failure(CapabilityNotFound)
      else if VerifyDidKeyMatch(u.issuer, target) == OK then OK
      else
        match u.fact
        case Proof(nested) =>
          if nested.Garbage? then Failure(ParseError)
          else if u.proofs.Listed? && CidOf(nested.token) !in u.proofs.cids then Failure(ProofChainInvalid)
          else ValidateEmbeddedProofChain(nested, user, target, domain, Some(u.issuer))
        case _ => Failure(ProofChainInvalid)
  }

  function ValidateConnectToken(text: TokenText, presenter: Key, verifier: Key, user: string, domain: string): Outcome {
    if !WellFormed(text) then Failure(InvalidStructure)
    else if IsOneTimeConnectToken(text.token, domain) then
      match VerifyDidKeyMatch(text.token.issuer, verifier)
      case Failure(e) => Failure(e)
      case Success(_) =>
        if FirstCovering(text.token.capabilities, ConnectUri(domain, user), "use") then OK else Failure(CapabilityNotFound)
    else
      match ValidateAudience(text.token, presenter)
      case Failure(e) => Failure(e)
      case Success(_) => ValidateEmbeddedProofChain(text, user, verifier, domain, None)
  }

  // What the embedded validation accepts

  ghost predicate Fit(u: Token, user: string, domain: string) {
    u.valid && Grants(u, domain + ":user-connect:" + user, "use")
  }

  /** `u` carries `inner`, which was issued to the issuer of `u` and is listed if `u` lists proofs. */
  ghost predicate Carries(u: Token, inner: Token) {
    && u.fact == Proof(Encoded(inner))
    && inner.audience == u.issuer
    && (u.proofs.Listed? ==> CidOf(inner) in u.proofs.cids)
  }

  /** An unbroken chain of embedded tokens that reaches one the target issued. */
  ghost predicate EmbeddedChain(chain: seq<Token>, user: string, target: Key, domain: string) {
    && chain != []
    && (forall i :: 0 <= i < |chain| ==> Fit(chain[i], user, domain))
    && (forall i :: 0 <= i < |chain| - 1 ==> Carries(chain[i], chain[i + 1]))
    && chain[|chain| - 1].issuer == KeyDid(target)
  }

  lemma AcceptedParts(u: Token, user: string, target: Key, domain: string, expected: Option<Did>)
    requires ValidateEmbeddedProofChain(Encoded(u), user, target, domain, expected) == OK
    ensures Fit(u, user, domain) && (expected.Some? ==> u.audience == expected.value)
    ensures u.issuer != KeyDid(target) ==>
      && u.fact.Proof? && u.fact.text.Encoded? && (u.proofs.Listed? ==> CidOf(u.fact.text.token) in u.proofs.cids)
      && ValidateEmbeddedProofChain(u.fact.text, user, target, domain, Some(u.issuer)) == OK
  {
    hide IsPattern;
  }

  lemma {:induction false} AcceptedHasChain(u: Token, user: string, target: Key, domain: string, expected: Option<Did>)
    returns (chain: seq<Token>)
    requires ValidateEmbeddedProofChain(Encoded(u), user, target, domain, expected) == OK
    ensures EmbeddedChain(chain, user, target, domain) && chain[0] == u
    decreases u
  {
    AcceptedParts(u, user, target, domain, expected);
    hide ValidateEmbeddedProofChain, Fit;
    if u.issuer == KeyDid(target) {
      chain := [u];
    } else {
      AcceptedParts(u.fact.text.token, user, target, domain, Some(u.issuer));
      var rest := AcceptedHasChain(u.fact.text.token, user, target, domain, Some(u.issuer));
      chain := [u] + rest;
      assert Carries(u, rest[0]);
      LongerChain(u, rest, user, target, domain);
    }
  }

  lemma LongerChain(u: Token, rest: seq<Token>, user: string, target: Key, domain: string)
    requires EmbeddedChain(rest, user, target, domain) && Fit(u, user, domain) && Carries(u, rest[0])
    ensures EmbeddedChain([u] + rest, user, target, domain)
  {
    hide Fit, Carries;
    var chain := [u] + rest;
    forall i | 0 <= i < |chain| - 1 ensures Carries(chain[i], chain[i + 1]) {
      if i > 0 {
        assert chain[i] == rest[i - 1] && chain[i + 1] == rest[i];
      }
    }
  }

  lemma {:induction false} ChainIsAccepted(chain: seq<Token>, user: string, target: Key, domain: string, expected: Option<Did>)
    requires EmbeddedChain(chain, user, target, domain)
    requires expected.Some? ==> chain[0].audience == expected.value
    ensures ValidateEmbeddedProofChain(Encoded(chain[0]), user, target, domain, expected) == OK
    decreases |chain|
  {
    if chain[0].issuer != KeyDid(target) {
      var rest := chain[1..];
      assert Carries(chain[0], chain[1]);
      forall i | 0 <= i < |rest| - 1 ensures Carries(rest[i], rest[i + 1]) {
        assert rest[i] == chain[i + 1] && rest[i + 1] == chain[i + 2];
      }
      ChainIsAccepted(rest, user, target, domain, Some(chain[0].issuer));
    }
  }

  /** The embedded validation accepts exactly the unbroken chains that reach the target's key. */
  lemma AcceptedIffChain(u: Token, user: string, target: Key, domain: string)
    ensures ValidateEmbeddedProofChain(Encoded(u), user, target, domain, None) == OK <==>
      exists chain :: EmbeddedChain(chain, user, target, domain) && chain[0] == u
  {
    if ValidateEmbeddedProofChain(Encoded(u), user, target, domain, None) == OK {
      var chain := AcceptedHasChain(u, user, target, domain, None);
    }
    if chain :| EmbeddedChain(chain, user, target, domain) && chain[0] == u {
      ChainIsAccepted(chain, user, target, domain, None);
    }
  }

  /** Addressed to anyone and meant for connecting to some user of the domain. */
  ghost predicate ForAnyone(u: Token, domain: string) {
    u.audience == OtherDid("*") &&
    exists c :: c in u.capabilities && c.ability == "use" && domain + ":user-connect" <= c.resource
  }

  /**
   The check of a presented token accepts exactly the valid tokens that are either one-time tokens the
   verifier issued for connecting to the user, or no one-time tokens, addressed to the presenter, and
   the beginning of an unbroken chain to the verifier.
   */
  lemma ConnectTokenIff(text: TokenText, presenter: Key, verifier: Key, user: string, domain: string)
    ensures ValidateConnectToken(text, presenter, verifier, user, domain) == OK <==>
      && text.Encoded? && text.token.valid
      && if ForAnyone(text.token, domain)
         then text.token.issuer == KeyDid(verifier) && Grants(text.token, domain + ":user-connect:" + user, "use")
         else
           && text.token.audience == KeyDid(presenter)
           && exists chain :: EmbeddedChain(chain, user, verifier, domain) && chain[0] == text.token
  {
    if WellFormed(text) {
      OneTimeIff(text.token, domain);
      AcceptedIffChain(text.token, user, verifier, domain);
    }
  }

  lemma OneTimeIff(u: Token, domain: string)
    ensures IsOneTimeConnectToken(u, domain) <==> ForAnyone(u, domain)
  {
    if ForAnyone(u, domain) {
      var c :| c in u.capabilities && c.ability == "use" && domain + ":user-connect" <= c.resource;
      var i :| 0 <= i < |u.capabilities| && u.capabilities[i] == c;
    }
  }

  /** The tokens of the path are fit, each carries the next, and the target issued none of them. */
  ghost predicate Unfinished(path: seq<Token>, user: string, target: Key, domain: string) {
    && path != []
    && (forall i :: 0 <= i < |path| ==> Fit(path[i], user, domain) && path[i].issuer != KeyDid(target))
    && (forall i :: 0 <= i < |path| - 1 ==> Carries(path[i], path[i + 1]))
  }

  /** Why a path ends at `u`: what `u` carries is no token, not the one it lists, or not fit to follow. */
  ghost predicate StopsAt(u: Token, user: string, domain: string, e: UcanError) {
    if !u.fact.Proof? then e == ProofChainInvalid
    else if u.fact.text.Garbage? then e == ParseError
    else
      var inner := u.fact.text.token;
      if u.proofs.Listed? && CidOf(inner) !in u.proofs.cids then e == ProofChainInvalid
      else if !inner.valid then e == InvalidStructure
      else if inner.audience != u.issuer then e == InvalidIssuer
      else e == CapabilityNotFound && !Grants(inner, domain + ":user-connect:" + user, "use")
  }

  lemma OkOrFailure(out: Outcome)
    ensures out == OK || out.Failure?
  {
    if out.Success? {
      assert out.value.Unit?;
    }
  }

  /** A refused chain is refused for the reason its longest path from `u` ends. */
  lemma {:induction false} RefusedAt(u: Token, user: string, target: Key, domain: string, expected: Option<Did>)
    returns (path: seq<Token>, e: UcanError)
    requires Fit(u, user, domain) && (expected.Some? ==> u.audience == expected.value)
    requires ValidateEmbeddedProofChain(Encoded(u), user, target, domain, expected) != OK
    ensures Unfinished(path, user, target, domain) && path[0] == u && StopsAt(path[|path| - 1], user, domain, e)
    ensures ValidateEmbeddedProofChain(Encoded(u), user, target, domain, expected) == Failure(e)
    decreases u
  {
    var out := ValidateEmbeddedProofChain(Encoded(u), user, target, domain, expected);
    OkOrFailure(out);
    path, e := [u], out.error;
    hide IsPattern;
    if u.fact.Proof? && u.fact.text.Encoded? && Carries(u, u.fact.text.token) && Fit(u.fact.text.token, user, domain) {
      var rest, reason := RefusedAt(u.fact.text.token, user, target, domain, Some(u.issuer));
      path, e := [u] + rest, reason;
      LongerPath(u, rest, user, target, domain);
    }
  }

  lemma LongerPath(u: Token, rest: seq<Token>, user: string, target: Key, domain: string)
    requires Unfinished(rest, user, target, domain) && Fit(u, user, domain) && u.issuer != KeyDid(target) && Carries(u, rest[0])
    ensures Unfinished([u] + rest, user, target, domain)
  {
    hide Fit, Carries;
    var path := [u] + rest;
    forall i | 0 <= i < |path| - 1 ensures Carries(path[i], path[i + 1]) {
      if i > 0 {
        assert path[i] == rest[i - 1] && path[i + 1] == rest[i];
      }
    }
  }

  /** Every reason for refusing a presented token. */
  lemma ConnectRefusals(text: TokenText, presenter: Key, verifier: Key, user: string, domain: string)
    requires ValidateConnectToken(text, presenter, verifier, user, domain) != OK
    ensures var out := ValidateConnectToken(text, presenter, verifier, user, domain);
      if !(text.Encoded? && text.token.valid) then out == Failure(InvalidStructure)
      else if ForAnyone(text.token, domain) then
        out == Failure(if text.token.issuer.OtherDid? then UnsupportedDid
                       else if text.token.issuer.key != verifier then PublicKeyMismatch else CapabilityNotFound)
      else if text.token.audience.OtherDid? then out == Failure(UnsupportedDid)
      else if text.token.audience.key != presenter then out == Failure(InvalidAudience)
      else if !Grants(text.token, domain + ":user-connect:" + user, "use") then out == Failure(CapabilityNotFound)
      else exists path, e :: && Unfinished(path, user, verifier, domain) && path[0] == text.token
                             && StopsAt(path[|path| - 1], user, domain, e) && out == Failure(e)
  {
    if WellFormed(text) {
      OneTimeIff(text.token, domain);
      hide IsPattern, IsOneTimeConnectToken, ForAnyone;
      if !ForAnyone(text.token, domain) && text.token.audience == KeyDid(presenter) && Fit(text.token, user, domain) {
        var path, e := RefusedAt(text.token, user, verifier, domain, None);
      }
    }
  }

  // Tokens handed on

  /** The token at the end of a path of holders, the first of whom got it from the target user. */
  function ConnectTokenFor(path: seq<Key>, target: Key, user: string, domain: string): Token
    requires path != []
  {
    if |path| == 1 then DelegationAndConnectionToken(target, user, path[0], domain)
    else
      DelegatedConnectionToken(path[|path| - 2], user, path[|path| - 1], domain,
                               ConnectTokenFor(path[..|path| - 1], target, user, domain))
  }

  lemma {:induction false} HandedOnChain(path: seq<Key>, target: Key, user: string, domain: string) returns (chain: seq<Token>)
    requires path != []
    ensures EmbeddedChain(chain, user, target, domain) && chain[0] == ConnectTokenFor(path, target, user, domain)
    ensures chain[0].audience == KeyDid(path[|path| - 1])
  {
    var u := ConnectTokenFor(path, target, user, domain);
    NamedIsCovered(ConnectUri(domain, user), "use");
    assert u.capabilities[0] == Capability(ConnectUri(domain, user), "use");
    assert Fit(u, user, domain);
    if |path| == 1 {
      chain := [u];
    } else {
      var rest := HandedOnChain(path[..|path| - 1], target, user, domain);
      chain := [u] + rest;
      forall i | 0 <= i < |chain| - 1 ensures Carries(chain[i], chain[i + 1]) {
        if i > 0 {
          assert chain[i] == rest[i - 1] && chain[i + 1] == rest[i];
        }
      }
    }
  }

  /** A token handed on any number of times lets its own holder, and nobody else, connect to the target. */
  lemma HandedOnTokenConnects(path: seq<Key>, presenter: Key, target: Key, user: string, domain: string)
    requires path != []
    ensures ValidateConnectToken(Encoded(ConnectTokenFor(path, target, user, domain)), presenter, target, user, domain) ==
      if presenter == path[|path| - 1] then OK else Failure(InvalidAudience)
  {
    var chain := HandedOnChain(path, target, user, domain);
    ChainIsAccepted(chain, user, target, domain, None);
  }

  /** Only the first holder, who has the token from the target, may share the connection on those terms. */
  lemma FirstHolderMayShare(path: seq<Key>, target: Key, user: string, domain: string)
    requires path != []
    ensures Grants(ConnectTokenFor(path, target, user, domain), domain + ":user-share:" + user, "use") <==> |path| == 1
  {
    var u, uri := ConnectTokenFor(path, target, user, domain), domain + ":user-share:" + user;
    if |path| == 1 {
      assert u.capabilities[1] == Capability(uri, "use");
    } else {
      var other := u.capabilities[0].resource;
      assert other[|domain| + 6] == 'c' && uri[|domain| + 6] == 's';
      NoPattern(other, uri, |domain| + 6);
    }
  }

  lemma NoPattern(pattern: string, resource: string, k: nat)
    requires k < |pattern| - 1 && k < |resource| && pattern[k] != resource[k]
    ensures !IsPattern(pattern, resource)
  {
    assert pattern[..|pattern| - 1][k] == pattern[k];
  }

  /** A token handed on along a path of holders, the first of whom holds `first`. */
  function HandedOnFrom(first: Token, path: seq<Key>, user: string, domain: string): Token
    requires path != []
  {
    if |path| == 1 then first
    else
      DelegatedConnectionToken(path[|path| - 2], user, path[|path| - 1], domain,
                               HandedOnFrom(first, path[..|path| - 1], user, domain))
  }

  /**
   A one-time token is issued to anyone, not to the one who hands it on.  However often it is handed
   on, the result is accepted if and only if the target is among those who handed it on.
   */
  lemma {:induction false} OneTimeTokenHandedOn(first: Token, path: seq<Key>, target: Key, user: string, domain: string,
                                                expected: Option<Did>)
    requires first.audience == OtherDid("*") && |path| > 1
    requires expected.Some? ==> expected.value == KeyDid(path[|path| - 1])
    ensures ValidateEmbeddedProofChain(Encoded(HandedOnFrom(first, path, user, domain)), user, target, domain, expected) == OK
      <==> target in path[..|path| - 1]
  {
    var u, shorter := HandedOnFrom(first, path, user, domain), path[..|path| - 1];
    NamedIsCovered(ConnectUri(domain, user), "use");
    assert u.capabilities[0] == Capability(ConnectUri(domain, user), "use");
    assert shorter == shorter[..|shorter| - 1] + [path[|path| - 2]];
    if |path| > 2 {
      OneTimeTokenHandedOn(first, shorter, target, user, domain, Some(u.issuer));
    } else {
      assert shorter[..0] == [];
    }
  }
}
