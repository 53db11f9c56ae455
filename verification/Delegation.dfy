/**
 Minting resource tokens and validating them: the owner's token, delegation step by step, and the
 check a peer makes before it takes in updates.  A holder path lists the keys a resource has been
 passed along, starting with the owner; the paths form the delegation tree.
 */
module Delegation {
  import opened Wrappers
  import opened Ucan

  const RESOURCE_MARK: string := ":resource"

  function ResourceUri(domain: string, id: string): string {
    domain + RESOURCE_MARK + ":" + id
  }

  lemma UriText(domain: string, id: string)
    ensures ResourceUri(domain, id) == domain + ":resource:" + id
  {
    assert RESOURCE_MARK + ":" == ":resource:";
    assert domain + RESOURCE_MARK + ":" == domain + (RESOURCE_MARK + ":");
  }

  const OWNER_ABILITIES: seq<string> := ["crud/read", "crud/update", "crud/delete", "ucan/share"]
  const SHARED_ABILITIES: seq<string> := ["crud/read", "crud/update", "ucan/share"]

  function Permissions(uri: string, abilities: seq<string>): (cs: seq<Capability>)
    ensures |cs| == |abilities| && forall i :: 0 <= i < |cs| ==> cs[i] == Capability(uri, abilities[i])
  {
    seq(|abilities|, i requires 0 <= i < |abilities| => Capability(uri, abilities[i]))
  }

  /** The owner's token: issued by the owner to the owner, with every ability. */
  function OwnerToken(owner: Key, domain: string, id: string): Token {
    Token(KeyDid(owner), KeyDid(owner), Permissions(ResourceUri(domain, id), OWNER_ABILITIES), Absent, NoProof, true)
  }

  method GenerateResourceOwnerUcan(owner: Key, id: string, domain: string) returns (token: Token)
    ensures token == OwnerToken(owner, domain, id)
    ensures token.valid && token.issuer == token.audience == KeyDid(owner) && token.proofs.Absent?
    ensures var uri := domain + ":resource:" + id;
      token.capabilities == [Capability(uri, "crud/read"), Capability(uri, "crud/update"), Capability(uri, "crud/delete"),
                             Capability(uri, "ucan/share")]
  {
    var uri := ResourceUri(domain, id);
    token := Token(KeyDid(owner), KeyDid(owner), [], Absent, NoProof, true);
    for i := 0 to |OWNER_ABILITIES|
      invariant token == Token(KeyDid(owner), KeyDid(owner), Permissions(uri, OWNER_ABILITIES)[..i], Absent, NoProof, true)
    {
      token := token.(capabilities := token.capabilities + [Capability(uri, OWNER_ABILITIES[i])]);
    }
    UriText(domain, id);
  }

  /** A new link: issued by the delegator, witnessed by the parent's CID. */
  function DelegatedToken(delegator: Key, recipient: Key, permissions: seq<Capability>, parent: Token): Token {
    Token(KeyDid(delegator), KeyDid(recipient), permissions, Listed([CidOf(parent)]), NoProof, true)
  }

  // Domains

  /** Where `mark` first occurs in `text`, from position `from` on. */
  function FindFrom(text: string, mark: string, from: nat): (p: Option<nat>)
    requires from <= |text|
    ensures p.Some? ==> from <= p.value <= |text| && mark <= text[p.value..]
    ensures p.Some? ==> forall q :: from <= q < p.value ==> !(mark <= text[q..])
    ensures p.None? ==> forall q :: from <= q <= |text| ==> !(mark <= text[q..])
    decreases |text| - from
  {
    if mark <= text[from..] then Some(from)
    else if from == |text| then None
    else FindFrom(text, mark, from + 1)
  }

  /** The text before the first mark of the first capability in which that text is not empty. */
  function ExtractDomain(cs: seq<Capability>, mark: string): Option<string> {
    if cs == [] then None
    else
      var p := FindFrom(cs[0].resource, mark, 0);
      if p.Some? && p.value > 0 then Some(cs[0].resource[..p.value]) else ExtractDomain(cs[1..], mark)
  }

  /** The mark stands at `p` and nowhere before. */
  ghost predicate FirstAt(text: string, mark: string, p: nat) {
    p <= |text| && mark <= text[p..] && forall q :: 0 <= q < p ==> !(mark <= text[q..])
  }

  /** `domain` is what stands before the first mark of a resource name, is not empty, and no earlier name has such text. */
  ghost predicate IsDomainOf(cs: seq<Capability>, mark: string, domain: string) {
    exists i :: 0 <= i < |cs| && IsDomainAt(cs, mark, domain, i)
  }

  ghost predicate IsDomainAt(cs: seq<Capability>, mark: string, domain: string, i: nat)
    requires i < |cs|
  {
    && domain != "" && domain <= cs[i].resource && FirstAt(cs[i].resource, mark, |domain|)
    && forall j, p: nat :: 0 <= j < i && FirstAt(cs[j].resource, mark, p) ==> p == 0
  }

  lemma FindIsFirst(text: string, mark: string, p: nat)
    ensures FirstAt(text, mark, p) <==> FindFrom(text, mark, 0) == Some(p)
  {
  }

  lemma {:induction false} ExtractedIsDomain(cs: seq<Capability>, mark: string, domain: string)
    ensures ExtractDomain(cs, mark) == Some(domain) <==> IsDomainOf(cs, mark, domain)
  {
    hide FindFrom, FirstAt;
    if cs != [] {
      var rest, found := cs[1..], FindFrom(cs[0].resource, mark, 0);
      ExtractedIsDomain(rest, mark, domain);
      forall p ensures FirstAt(cs[0].resource, mark, p) <==> found == Some(p) {
        FindIsFirst(cs[0].resource, mark, p);
      }
      FirstInBounds(cs[0].resource, mark);
      if found.Some? && found.value > 0 {
        FirstNameDecides(cs, mark, domain, found.value);
      } else {
        LaterNameDecides(cs, mark, domain);
      }
    }
  }

  lemma FirstInBounds(text: string, mark: string)
    ensures forall p: nat :: FirstAt(text, mark, p) ==> p <= |text|
  {
  }

  lemma FirstNameDecides(cs: seq<Capability>, mark: string, domain: string, p: nat)
    requires cs != [] && p > 0 && forall q :: FirstAt(cs[0].resource, mark, q) <==> q == p
    ensures p <= |cs[0].resource| && (IsDomainOf(cs, mark, domain) <==> domain == cs[0].resource[..p])
  {
    assert FirstAt(cs[0].resource, mark, p);
    FirstInBounds(cs[0].resource, mark);
    hide FirstAt;
    if domain == cs[0].resource[..p] {
      assert IsDomainAt(cs, mark, domain, 0);
    }
  }

  lemma LaterNameDecides(cs: seq<Capability>, mark: string, domain: string)
    requires cs != [] && forall q :: FirstAt(cs[0].resource, mark, q) ==> q == 0
    ensures IsDomainOf(cs, mark, domain) <==> IsDomainOf(cs[1..], mark, domain)
  {
    hide FirstAt;
    var rest := cs[1..];
    if i: nat :| i < |cs| && IsDomainAt(cs, mark, domain, i) {
      assert i > 0 && rest[i - 1] == cs[i];
      forall j, p: nat | 0 <= j < i - 1 && FirstAt(rest[j].resource, mark, p) ensures p == 0 {
        assert rest[j] == cs[j + 1];
      }
      assert IsDomainAt(rest, mark, domain, i - 1);
    }
    if i: nat :| i < |rest| && IsDomainAt(rest, mark, domain, i) {
      assert rest[i] == cs[i + 1];
      forall j, p: nat | 0 <= j < i + 1 && FirstAt(cs[j].resource, mark, p) ensures p == 0 {
        assert j > 0 ==> cs[j] == rest[j - 1];
      }
      assert IsDomainAt(cs, mark, domain, i + 1);
    }
  }

  method ExtractDomainFromUcan(u: Token, mark: string) returns (r: Result<string, UcanError>)
    ensures r == match ExtractDomain(u.capabilities, mark) { case Some(d) => Success(d) case None => Failure(CapabilityNotFound) }
    ensures forall domain :: r == Success(domain) <==> IsDomainOf(u.capabilities, mark, domain)
  {
    forall domain ensures ExtractDomain(u.capabilities, mark) == Some(domain) <==> IsDomainOf(u.capabilities, mark, domain) {
      ExtractedIsDomain(u.capabilities, mark, domain);
    }
    hide IsDomainOf;
    for i := 0 to |u.capabilities|
      invariant ExtractDomain(u.capabilities, mark) == ExtractDomain(u.capabilities[i..], mark)
    {
      var p := FindFrom(u.capabilities[i].resource, mark, 0);
      if p.Some? {
        var domain := u.capabilities[i].resource[..p.value];
        if domain != [] {
          return Success(domain);
        }
      }
    }
    return Failure(CapabilityNotFound);
  }

  ghost predicate Contains(text: string, mark: string) {
    exists q :: 0 <= q <= |text| && mark <= text[q..]
  }

  /** No occurrence of the mark reaches across the end of the domain, because it starts with its only colon. */
  lemma MarkInUri(domain: string, id: string, q: nat)
    requires q < |domain|
    ensures RESOURCE_MARK <= ResourceUri(domain, id)[q..] <==> RESOURCE_MARK <= domain[q..]
  {
    var uri, mark := ResourceUri(domain, id), RESOURCE_MARK;
    if q + |mark| <= |domain| {
      assert uri[q..][..|mark|] == domain[q..][..|mark|];
    } else {
      var j := |domain| - q;
      assert uri[q..][j] == uri[|domain|] == ':';
      assert mark[j] != ':';
    }
  }

  /** The first mark of a resource name stands in the domain if the domain contains one, else right behind it. */
  lemma FirstMark(domain: string, id: string)
    ensures var p := FindFrom(ResourceUri(domain, id), RESOURCE_MARK, 0);
      && p.Some? && p.value <= |domain|
      && (p.value == |domain| <==> !Contains(domain, RESOURCE_MARK))
      && (p.value == 0 <==> domain == "" || RESOURCE_MARK <= domain)
      && (p.value < |domain| ==> p.value + |RESOURCE_MARK| <= |domain|)
  {
    var uri, mark := ResourceUri(domain, id), RESOURCE_MARK;
    var p := FindFrom(uri, mark, 0);
    assert uri[|domain|..][..|mark|] == mark;
    assert mark <= uri[|domain|..];
    forall q: nat | q < |domain| ensures mark <= uri[q..] <==> mark <= domain[q..] {
      MarkInUri(domain, id, q);
    }
    assert domain[0..] == domain;
    if p.value < |domain| {
      assert mark <= domain[p.value..];
    }
  }

  /** Extraction gives the domain back exactly when the domain is not empty and does not contain the mark. */
  lemma ExtractedDomain(domain: string, id: string, cs: seq<Capability>)
    requires cs != [] && forall i :: 0 <= i < |cs| ==> cs[i].resource == ResourceUri(domain, id)
    ensures domain == "" || RESOURCE_MARK <= domain <==> ExtractDomain(cs, RESOURCE_MARK) == None
    ensures domain != "" && !Contains(domain, RESOURCE_MARK) ==> ExtractDomain(cs, RESOURCE_MARK) == Some(domain)
    ensures Contains(domain, RESOURCE_MARK) && !(RESOURCE_MARK <= domain) ==>
      exists p :: 0 < p && p + |RESOURCE_MARK| <= |domain| && ExtractDomain(cs, RESOURCE_MARK) == Some(domain[..p])
  {
    hide ExtractDomain, Contains, ResourceUri;
    var p := ExtractedAt(domain, id, cs);
    assert domain[..|domain|] == domain;
  }

  /** Extraction cuts every capability at the same place. */
  lemma ExtractedAt(domain: string, id: string, cs: seq<Capability>) returns (p: nat)
    requires cs != [] && forall i :: 0 <= i < |cs| ==> cs[i].resource == ResourceUri(domain, id)
    ensures p <= |domain| && (p == |domain| <==> !Contains(domain, RESOURCE_MARK))
    ensures p == 0 <==> domain == "" || RESOURCE_MARK <= domain
    ensures p < |domain| ==> p + |RESOURCE_MARK| <= |domain|
    ensures ExtractDomain(cs, RESOURCE_MARK) == if p > 0 then Some(domain[..p]) else None
  {
    hide FindFrom, Contains;
    var uri := ResourceUri(domain, id);
    FirstMark(domain, id);
    p := FindFrom(uri, RESOURCE_MARK, 0).value;
    SameEverywhere(cs, uri, RESOURCE_MARK);
    assert uri[..p] == domain[..p];
  }

  lemma {:induction false} SameEverywhere(cs: seq<Capability>, uri: string, mark: string)
    requires cs != [] && forall i :: 0 <= i < |cs| ==> cs[i].resource == uri
    ensures var p := FindFrom(uri, mark, 0);
      ExtractDomain(cs, mark) == if p.Some? && p.value > 0 then Some(uri[..p.value]) else None
  {
    if |cs| > 1 {
      SameEverywhere(cs[1..], uri, mark);
    }
  }

  // The two operations

  /** `issue_delegated_resource_ucan`: the proof must be valid and allow sharing; the new token is minted from it. */
  function IssueDelegatedResourceUcan(delegator: Key, proof: TokenText, verifier: Key, id: string, recipient: Key,
                                      permissions: seq<Capability>, r: Resolver, ghost height: Token -> nat)
    : Result<Token, UcanError>
    requires Acyclic(r, height)
  {
    if !WellFormed(proof) then Failure(InvalidStructure)
    else
      match ExtractDomain(proof.token.capabilities, RESOURCE_MARK)
      case None => Failure(CapabilityNotFound)
      case Some(domain) =>
        match ValidateUcanPermission(proof.token, verifier, r, ResourceUri(domain, id), "ucan/share", height)
        case Failure(e) => Failure(e)
        case Success(_) => Success(DelegatedToken(delegator, recipient, permissions, proof.token))
  }

  /** The check a peer makes before it takes in updates. */
  function ValidateAuthorityForUpdate(text: TokenText, presenter: Key, root: Key, id: string, domain: string, r: Resolver,
                                      ghost height: Token -> nat): Outcome
    requires Acyclic(r, height)
  {
    if !WellFormed(text) then Failure(InvalidStructure)
    else
      match ValidateAudience(text.token, presenter)
      case Failure(e) => Failure(e)
      case Success(_) => ValidateUcanPermission(text.token, root, r, ResourceUri(domain, id), "crud/update", height)
  }

  /**
   The update check accepts exactly the valid tokens addressed to the presenter from which an open chain
   for updating the resource leads to the root.
   */
  lemma UpdateCheckIff(text: TokenText, presenter: Key, root: Key, id: string, domain: string, r: Resolver, height: Token -> nat)
    requires Acyclic(r, height)
    ensures ValidateAuthorityForUpdate(text, presenter, root, id, domain, r, height) == OK <==>
      && text.Encoded? && text.token.valid && text.token.audience == KeyDid(presenter)
      && exists chain :: OpenChain(chain, root, r, domain + ":resource:" + id, "crud/update") && chain[0] == text.token
    ensures !(text.Encoded? && text.token.valid) ==>
      ValidateAuthorityForUpdate(text, presenter, root, id, domain, r, height) == Failure(InvalidStructure)
  {
    UriText(domain, id);
    if text.Encoded? {
      AcceptedIffOpenChain(text.token, root, r, domain + ":resource:" + id, "crud/update", height);
      hide ValidateUcanPermission;
    }
  }

  /** Why the update check refuses a token: its text, its audience, or the search for a chain. */
  lemma UpdateRefusals(text: TokenText, presenter: Key, root: Key, id: string, domain: string, r: Resolver, height: Token -> nat)
    requires Acyclic(r, height)
    requires ValidateAuthorityForUpdate(text, presenter, root, id, domain, r, height) != OK
    ensures ValidateAuthorityForUpdate(text, presenter, root, id, domain, r, height) == Failure(
      if !(text.Encoded? && text.token.valid) then InvalidStructure
      else if text.token.audience.OtherDid? then UnsupportedDid
      else if text.token.audience.key != presenter then InvalidAudience
      else NoChainReason(text.token, r, domain + ":resource:" + id, "crud/update"))
  {
    UriText(domain, id);
    if WellFormed(text) && text.token.audience == KeyDid(presenter) {
      RefusalReasons(text.token, root, r, domain + ":resource:" + id, "crud/update", height);
      hide ValidateUcanPermission;
    }
  }

  /** The new token: from the delegator to the recipient, with the permissions asked for and the parent as its one proof. */
  ghost predicate MintedFrom(t: Token, delegator: Key, recipient: Key, permissions: seq<Capability>, parent: Token) {
    && t.issuer == KeyDid(delegator) && t.audience == KeyDid(recipient) && t.capabilities == permissions
    && t.proofs == Listed([CidOf(parent)]) && t.fact == NoProof && t.valid
  }

  /** An open chain for sharing the resource leads from the token to the verifier. */
  ghost predicate MayShare(u: Token, verifier: Key, domain: string, id: string, r: Resolver) {
    exists chain :: OpenChain(chain, verifier, r, domain + ":resource:" + id, "ucan/share") && chain[0] == u
  }

  /**
   Delegation mints a token exactly from a valid parent that names a domain and may share the resource
   in that domain.
   */
  lemma DelegatesIff(delegator: Key, proof: TokenText, verifier: Key, id: string, recipient: Key, permissions: seq<Capability>,
                     r: Resolver, height: Token -> nat)
    requires Acyclic(r, height)
    ensures var out := IssueDelegatedResourceUcan(delegator, proof, verifier, id, recipient, permissions, r, height);
      && (out.Success? <==>
            && proof.Encoded? && proof.token.valid
            && exists domain ::
                 IsDomainOf(proof.token.capabilities, ":resource", domain) && MayShare(proof.token, verifier, domain, id, r))
      && (out.Success? ==> MintedFrom(out.value, delegator, recipient, permissions, proof.token))
  {
    if proof.Encoded? {
      var cs := proof.token.capabilities;
      forall domain ensures ExtractDomain(cs, RESOURCE_MARK) == Some(domain) <==> IsDomainOf(cs, ":resource", domain) {
        ExtractedIsDomain(cs, RESOURCE_MARK, domain);
      }
      hide IsDomainOf, ExtractDomain, ValidateUcanPermission;
      forall domain
        ensures ValidateUcanPermission(proof.token, verifier, r, ResourceUri(domain, id), "ucan/share", height) == OK <==>
          MayShare(proof.token, verifier, domain, id, r)
      {
        UriText(domain, id);
        AcceptedIffOpenChain(proof.token, verifier, r, ResourceUri(domain, id), "ucan/share", height);
      }
      hide MayShare;
      var found := ExtractDomain(cs, RESOURCE_MARK);
      if found.Some? {
        assert IsDomainOf(cs, ":resource", found.value);
        var allowed := ValidateUcanPermission(proof.token, verifier, r, ResourceUri(found.value, id), "ucan/share", height);
        assert allowed.Success? ==> allowed.value.Unit?;
      }
    }
  }

  /** Why a delegation is refused: the text of the parent, a parent that names no domain, or the search for a chain. */
  lemma DelegationRefusals(delegator: Key, proof: TokenText, verifier: Key, id: string, recipient: Key,
                           permissions: seq<Capability>, r: Resolver, height: Token -> nat)
    requires Acyclic(r, height)
    requires IssueDelegatedResourceUcan(delegator, proof, verifier, id, recipient, permissions, r, height).Failure?
    ensures var e := IssueDelegatedResourceUcan(delegator, proof, verifier, id, recipient, permissions, r, height).error;
      if !(proof.Encoded? && proof.token.valid) then e == InvalidStructure
      else if forall domain :: !IsDomainOf(proof.token.capabilities, ":resource", domain) then e == CapabilityNotFound
      else exists domain ::
        IsDomainOf(proof.token.capabilities, ":resource", domain) &&
        e == NoChainReason(proof.token, r, domain + ":resource:" + id, "ucan/share")
  {
    if WellFormed(proof) {
      var cs := proof.token.capabilities;
      forall domain ensures ExtractDomain(cs, RESOURCE_MARK) == Some(domain) <==> IsDomainOf(cs, ":resource", domain) {
        ExtractedIsDomain(cs, RESOURCE_MARK, domain);
      }
      hide IsDomainOf, ExtractDomain;
      var found := ExtractDomain(cs, RESOURCE_MARK);
      if found.Some? {
        UriText(found.value, id);
        RefusalReasons(proof.token, verifier, r, found.value + ":resource:" + id, "ucan/share", height);
        hide ValidateUcanPermission, NoChainReason;
        assert IsDomainOf(cs, ":resource", found.value);
      }
    }
  }

  // Delegation trees

  /** The token at the end of a holder path, when every holder passes on the right to read, update and share. */
  function TokenFor(path: seq<Key>, domain: string, id: string): Token
    requires path != []
  {
    if |path| == 1 then OwnerToken(path[0], domain, id)
    else
      DelegatedToken(path[|path| - 2], path[|path| - 1], Permissions(ResourceUri(domain, id), SHARED_ABILITIES),
                     TokenFor(path[..|path| - 1], domain, id))
  }

  function Last(path: seq<Key>): Key
    requires path != []
  {
    path[|path| - 1]
  }

  /** The resolver holds the tokens of all earlier holders of the path. */
  ghost predicate HoldsAncestors(r: Resolver, path: seq<Key>, domain: string, id: string) {
    forall n :: 0 < n < |path| ==>
      CidOf(TokenFor(path[..n], domain, id)) in r &&
      r[CidOf(TokenFor(path[..n], domain, id))] == Encoded(TokenFor(path[..n], domain, id))
  }

  lemma TokenAt(path: seq<Key>, domain: string, id: string, ability: string)
    requires path != [] && ability in SHARED_ABILITIES
    ensures var t := TokenFor(path, domain, id);
      && t.audience == KeyDid(Last(path))
      && t.issuer == KeyDid(if |path| == 1 then path[0] else path[|path| - 2])
      && Grants(t, ResourceUri(domain, id), ability)
  {
    hide ResourceUri;
    if |path| == 1 {
      assert OWNER_ABILITIES[0] == SHARED_ABILITIES[0] && OWNER_ABILITIES[1] == SHARED_ABILITIES[1];
      assert OWNER_ABILITIES[3] == SHARED_ABILITIES[2];
      ListedIsGranted(TokenFor(path, domain, id), ResourceUri(domain, id), OWNER_ABILITIES, ability);
    } else {
      ListedIsGranted(TokenFor(path, domain, id), ResourceUri(domain, id), SHARED_ABILITIES, ability);
    }
  }

  lemma ListedIsGranted(t: Token, uri: string, abilities: seq<string>, ability: string)
    requires t.capabilities == Permissions(uri, abilities) && ability in abilities
    ensures Grants(t, uri, ability)
  {
    var i :| 0 <= i < |abilities| && abilities[i] == ability;
    assert t.capabilities[i] == Capability(uri, ability);
    NamedIsCovered(uri, ability);
  }

  /** Every token of the tree validates for the owner, whatever the depth, for each of the shared abilities. */
  lemma {:induction false} TreeTokenValidates(path: seq<Key>, domain: string, id: string, ability: string, r: Resolver,
                                              height: Token -> nat)
    requires path != [] && ability in ["crud/read", "crud/update", "ucan/share"]
    requires Acyclic(r, height) && HoldsAncestors(r, path, domain, id)
    ensures ValidateUcanPermission(TokenFor(path, domain, id), path[0], r, domain + ":resource:" + id, ability, height) == OK
  {
    var t := TokenFor(path, domain, id);
    UriText(domain, id);
    TokenAt(path, domain, id, ability);
    if t.issuer != KeyDid(path[0]) {
      var shorter := path[..|path| - 1];
      forall n | 0 < n < |shorter| ensures path[..n] == shorter[..n] {
      }
      TokenAt(shorter, domain, id, ability);
      TreeTokenValidates(shorter, domain, id, ability, r, height);
      assert Aligned(t, CidOf(TokenFor(shorter, domain, id)), r);
    }
  }

  /** Every token of the tree, at any depth, passes the update check for its own audience and for nobody else. */
  lemma MintedTokenPasses(path: seq<Key>, presenter: Key, domain: string, id: string, r: Resolver, height: Token -> nat)
    requires path != [] && Acyclic(r, height) && HoldsAncestors(r, path, domain, id)
    ensures ValidateAuthorityForUpdate(Encoded(TokenFor(path, domain, id)), presenter, path[0], id, domain, r, height) ==
      if presenter == Last(path) then OK else Failure(InvalidAudience)
  {
    UriText(domain, id);
    TokenAt(path, domain, id, "crud/update");
    TreeTokenValidates(path, domain, id, "crud/update", r, height);
  }

  /** The domain survives extraction, or the token to delegate from was issued by the owner. */
  ghost predicate CanDelegate(path: seq<Key>, domain: string)
    requires path != []
  {
    && domain != "" && !(RESOURCE_MARK <= domain)
    && (!Contains(domain, RESOURCE_MARK) || path[if |path| == 1 then 0 else |path| - 2] == path[0])
  }

  /**
   Delegation from a token of the tree mints the next token of the tree exactly when the domain is
   not empty, does not start with the mark, and contains it at most where the owner is the issuer.
   */
  lemma DelegationIff(path: seq<Key>, recipient: Key, domain: string, id: string, r: Resolver, height: Token -> nat)
    requires path != [] && Acyclic(r, height) && HoldsAncestors(r, path, domain, id)
    ensures IssueDelegatedResourceUcan(Last(path), Encoded(TokenFor(path, domain, id)), path[0], id, recipient,
                                       Permissions(ResourceUri(domain, id), SHARED_ABILITIES), r, height) ==
        Success(TokenFor(path + [recipient], domain, id))
      <==> CanDelegate(path, domain)
    ensures !CanDelegate(path, domain) ==>
      IssueDelegatedResourceUcan(Last(path), Encoded(TokenFor(path, domain, id)), path[0], id, recipient,
                                 Permissions(ResourceUri(domain, id), SHARED_ABILITIES), r, height).Failure?
  {
    hide ValidateUcanPermission, ExtractDomain, TokenFor, Permissions, Contains, HoldsAncestors;
    UriText(domain, id);
    var t, uri := TokenFor(path, domain, id), ResourceUri(domain, id);
    NextToken(path, recipient, domain, id);
    TokenAt(path, domain, id, "ucan/share");
    TreeTokenValidates(path, domain, id, "ucan/share", r, height);
    TokenUris(path, domain, id);
    ExtractedDomain(domain, id, t.capabilities);
    if Contains(domain, RESOURCE_MARK) && !(RESOURCE_MARK <= domain) {
      var p :| 0 < p && p + |RESOURCE_MARK| <= |domain| && ExtractDomain(t.capabilities, RESOURCE_MARK) == Some(domain[..p]);
      CutDomainIsRefused(path, domain, id, p, r, height);
    }
  }

  lemma NextToken(path: seq<Key>, recipient: Key, domain: string, id: string)
    requires path != []
    ensures TokenFor(path + [recipient], domain, id) ==
      DelegatedToken(Last(path), recipient, Permissions(ResourceUri(domain, id), SHARED_ABILITIES), TokenFor(path, domain, id))
    ensures TokenFor(path, domain, id).valid
  {
  }

  lemma TokenUris(path: seq<Key>, domain: string, id: string)
    requires path != []
    ensures var cs := TokenFor(path, domain, id).capabilities;
      cs != [] && forall i :: 0 <= i < |cs| ==> cs[i].resource == ResourceUri(domain, id)
  {
  }

  /** With the wrong domain only the owner's own delegations validate. */
  lemma CutDomainIsRefused(path: seq<Key>, domain: string, id: string, p: nat, r: Resolver, height: Token -> nat)
    requires path != [] && Acyclic(r, height) && HoldsAncestors(r, path, domain, id)
    requires p + |RESOURCE_MARK| <= |domain|
    ensures ValidateUcanPermission(TokenFor(path, domain, id), path[0], r, ResourceUri(domain[..p], id), "ucan/share", height) ==
      if TokenFor(path, domain, id).issuer == KeyDid(path[0]) then OK else Failure(DelegationNotPermitted)
  {
  }

  /** Without the mark in the domain the whole tree can be minted, to any depth. */
  lemma {:induction false} WholeTreeCanBeMinted(path: seq<Key>, domain: string, id: string, r: Resolver, height: Token -> nat)
    requires path != [] && Acyclic(r, height) && HoldsAncestors(r, path, domain, id)
    requires domain != "" && !Contains(domain, RESOURCE_MARK)
    ensures forall n :: 0 < n < |path| ==>
      IssueDelegatedResourceUcan(path[n - 1], Encoded(TokenFor(path[..n], domain, id)), path[0], id, path[n],
                                 Permissions(ResourceUri(domain, id), SHARED_ABILITIES), r, height) ==
      Success(TokenFor(path[..n + 1], domain, id))
  {
    assert domain[0..] == domain;
    forall n | 0 < n < |path|
      ensures IssueDelegatedResourceUcan(path[n - 1], Encoded(TokenFor(path[..n], domain, id)), path[0], id, path[n],
                                         Permissions(ResourceUri(domain, id), SHARED_ABILITIES), r, height) ==
        Success(TokenFor(path[..n + 1], domain, id))
    {
      forall m | 0 < m < n ensures path[..n][..m] == path[..m] {
      }
      assert path[..n] + [path[n]] == path[..n + 1];
      DelegationIff(path[..n], path[n], domain, id, r, height);
    }
  }

  /** A second delegation in a domain that contains the mark fails: the recipient's token was not issued by the owner. */
  lemma DeepDelegationCanFail(id: string, r: Resolver, height: Token -> nat)
    requires Acyclic(r, height) && HoldsAncestors(r, ["owner", "ann", "bob"], "app:resource", id)
    ensures IssueDelegatedResourceUcan("bob", Encoded(TokenFor(["owner", "ann", "bob"], "app:resource", id)), "owner", id, "cat",
                                       Permissions(ResourceUri("app:resource", id), SHARED_ABILITIES), r, height).Failure?
  {
    assert RESOURCE_MARK <= "app:resource"[3..];
    DelegationIff(["owner", "ann", "bob"], "cat", "app:resource", id, r, height);
  }
}
