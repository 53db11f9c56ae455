/**
 UCAN tokens, what a token grants, and the validation of a token against proofs looked up by CID.
 Keys are abstract, "structurally valid" is a flag (signature and lifetime), and the CID of a token
 determines the token.
 */
module Ucan {
  import opened Wrappers

  type Key = string

  /** A `did:key` of an Ed25519 key, or any other text in its place. */
  datatype Did = KeyDid(key: Key) | OtherDid(text: string)

  datatype Capability = Capability(resource: string, ability: string)

  datatype Cid = CidOf(token: Token) | OtherCid(text: string)

  datatype ProofList = Absent | Listed(cids: seq<Cid>)

  /** What the fact named "proof" holds. */
  datatype Fact = NoProof | NotText | Proof(text: TokenText)

  datatype TokenText = Encoded(token: Token) | Garbage(text: string)

  datatype Token = Token(
    issuer: Did,
    audience: Did,
    capabilities: seq<Capability>,
    proofs: ProofList,
    fact: Fact,
    valid: bool)

  datatype UcanError =
    | InvalidStructure | UnsupportedDid | PublicKeyMismatch | InvalidAudience | InvalidIssuer
    | CapabilityNotFound | ProofRequired | DelegationNotPermitted | ProofChainInvalid | ParseError

  datatype Unit = Unit

  type Outcome = Result<Unit, UcanError>

  const OK: Outcome := Success(Unit)

  predicate WellFormed(text: TokenText) {
    text.Encoded? && text.token.valid
  }

  function VerifyDidKeyMatch(did: Did, key: Key): Outcome {
    if did.OtherDid? then Failure(UnsupportedDid)
    else if did.key == key then OK
    else Failure(PublicKeyMismatch)
  }

  function ValidateAudience(u: Token, presenter: Key): Outcome {
    match VerifyDidKeyMatch(u.audience, presenter)
    case Failure(PublicKeyMismatch) => Failure(InvalidAudience)
    case other => other
  }

  /** `pattern` is a prefix of the resource, followed by an asterisk. */
  ghost predicate IsPattern(pattern: string, resource: string) {
    |pattern| > 0 && pattern == pattern[..|pattern| - 1] + "*" && pattern[..|pattern| - 1] <= resource
  }

  /** A capability covers a resource it names, or whose name continues the text before its trailing asterisk. */
  predicate Covers(c: Capability, resource: string, ability: string): (covers: bool)
    ensures covers <==> c.ability == ability && (c.resource == resource || IsPattern(c.resource, resource))
  {
    && c.ability == ability
    && (if c.resource != [] && c.resource[|c.resource| - 1] == '*'
        then c.resource[..|c.resource| - 1] <= resource
        else c.resource == resource)
  }

  /** Some capability has the ability and names the resource or, with a trailing asterisk, a prefix of it. */
  ghost predicate Grants(u: Token, resource: string, ability: string) {
    exists c :: c in u.capabilities && c.ability == ability && (c.resource == resource || IsPattern(c.resource, resource))
  }

  function FirstCovering(cs: seq<Capability>, resource: string, ability: string): (found: bool)
    ensures found <==>
      exists c :: c in cs && c.ability == ability && (c.resource == resource || IsPattern(c.resource, resource))
  {
    cs != [] && (Covers(cs[0], resource, ability) || FirstCovering(cs[1..], resource, ability))
  }

  method CheckCapability(u: Token, resource: string, ability: string) returns (r: Outcome)
    ensures r == if Grants(u, resource, ability) then OK else Failure(CapabilityNotFound)
  {
    for i := 0 to |u.capabilities|
      invariant forall c :: c in u.capabilities[..i] ==> !Covers(c, resource, ability)
    {
      assert u.capabilities[..i + 1] == u.capabilities[..i] + [u.capabilities[i]];
      if Covers(u.capabilities[i], resource, ability) {
        return OK;
      }
    }
    assert u.capabilities[..|u.capabilities|] == u.capabilities;
    return Failure(CapabilityNotFound);
  }

  /** Naming a resource covers it, also when the name ends in an asterisk. */
  lemma NamedIsCovered(resource: string, ability: string)
    ensures Covers(Capability(resource, ability), resource, ability)
  {
  }

  // Proofs looked up by CID

  type Resolver = map<Cid, TokenText>

  /** The parent a proof stands for: found, structurally valid and issued to the issuer of `u`. */
  predicate Aligned(u: Token, cid: Cid, r: Resolver) {
    cid in r && WellFormed(r[cid]) && r[cid].token.audience == u.issuer
  }

  /** Following proofs makes `height` smaller, so no token is its own ancestor. */
  ghost predicate Acyclic(r: Resolver, height: Token -> nat) {
    forall u: Token, cid: Cid :: u.proofs.Listed? && cid in u.proofs.cids && cid in r && r[cid].Encoded? ==>
      height(r[cid].token) < height(u)
  }

  function ValidateUcanPermission(u: Token, verifier: Key, r: Resolver, resource: string, ability: string,
                                  ghost height: Token -> nat): Outcome
    requires Acyclic(r, height)
    decreases height(u), 1, 0
  {
    match VerifyDidKeyMatch(u.issuer, verifier)
    case Success(_) => OK
    case Failure(PublicKeyMismatch) =>
      if u.proofs.Absent? || u.proofs.cids == [] then Failure(ProofRequired)
      else TryProofs(u, 0, verifier, r, resource, ability, height)
    case Failure(e) => Failure(e)
  }

  /** The proofs from the `i`th on: the first one that leads to the verifier, unless an aligned one lacks the capability. */
  function TryProofs(u: Token, i: nat, verifier: Key, r: Resolver, resource: string, ability: string,
                     ghost height: Token -> nat): Outcome
    requires Acyclic(r, height)
    requires u.proofs.Listed? && i <= |u.proofs.cids|
    decreases height(u), 0, |u.proofs.cids| - i
  {
    if i == |u.proofs.cids| then Failure(ProofChainInvalid)
    else
      var cid := u.proofs.cids[i];
      if !Aligned(u, cid, r) then TryProofs(u, i + 1, verifier, r, resource, ability, height)
      else
        var parent := r[cid].token;
        if !FirstCovering(parent.capabilities, resource, ability) then Failure(DelegationNotPermitted)
        else if ValidateUcanPermission(parent, verifier, r, resource, ability, height) == OK then OK
        else TryProofs(u, i + 1, verifier, r, resource, ability, height)
  }

  /** The CID leads to `parent`, a valid token issued to the issuer of `u`. */
  ghost predicate Witnesses(u: Token, cid: Cid, parent: Token, r: Resolver) {
    cid in r && r[cid] == Encoded(parent) && parent.valid && parent.audience == u.issuer
  }

  /** `parent` is the `i`th proof of `u` and grants the ability on the resource. */
  ghost predicate Link(u: Token, i: nat, parent: Token, r: Resolver, resource: string, ability: string) {
    && u.proofs.Listed? && i < |u.proofs.cids|
    && Witnesses(u, u.proofs.cids[i], parent, r)
    && Grants(parent, resource, ability)
  }

  /** No such token among the proofs before the `i`th lacks the grant. */
  ghost predicate Unblocked(u: Token, i: nat, r: Resolver, resource: string, ability: string)
    requires u.proofs.Listed? && i <= |u.proofs.cids|
  {
    forall j, parent :: 0 <= j < i && Witnesses(u, u.proofs.cids[j], parent, r) ==> Grants(parent, resource, ability)
  }

  ghost predicate Linked(u: Token, parent: Token, r: Resolver, resource: string, ability: string) {
    exists k: nat :: Link(u, k, parent, r, resource, ability)
  }

  ghost predicate OpenlyLinked(u: Token, parent: Token, r: Resolver, resource: string, ability: string) {
    exists k: nat :: Link(u, k, parent, r, resource, ability) && Unblocked(u, k, r, resource, ability)
  }

  /** A chain of linked tokens from `chain[0]` to one the verifier issued; every issuer is a key. */
  ghost predicate Chain(chain: seq<Token>, verifier: Key, r: Resolver, resource: string, ability: string) {
    && chain != []
    && (forall i :: 0 <= i < |chain| ==> chain[i].issuer.KeyDid?)
    && chain[|chain| - 1].issuer == KeyDid(verifier)
    && (forall i :: 0 <= i < |chain| - 1 ==> Linked(chain[i], chain[i + 1], r, resource, ability))
  }

  /** The same, through proofs that no earlier proof blocks. */
  ghost predicate OpenChain(chain: seq<Token>, verifier: Key, r: Resolver, resource: string, ability: string) {
    && chain != []
    && (forall i :: 0 <= i < |chain| ==> chain[i].issuer.KeyDid?)
    && chain[|chain| - 1].issuer == KeyDid(verifier)
    && (forall i :: 0 <= i < |chain| - 1 ==> OpenlyLinked(chain[i], chain[i + 1], r, resource, ability))
  }

  lemma {:induction false} AcceptedHasChain(u: Token, verifier: Key, r: Resolver, resource: string, ability: string,
                                            height: Token -> nat) returns (chain: seq<Token>)
    requires Acyclic(r, height)
    requires ValidateUcanPermission(u, verifier, r, resource, ability, height) == OK
    ensures OpenChain(chain, verifier, r, resource, ability) && chain[0] == u
    decreases height(u), 1, 0
  {
    if u.issuer == KeyDid(verifier) {
      chain := [u];
    } else {
      var k, rest := ProofsHaveChain(u, 0, verifier, r, resource, ability, height);
      chain := [u] + rest;
      assert Link(chain[0], k, chain[1], r, resource, ability) && Unblocked(chain[0], k, r, resource, ability);
      forall i | 0 <= i < |chain| - 1
        ensures OpenlyLinked(chain[i], chain[i + 1], r, resource, ability)
      {
        if i > 0 {
          assert chain[i] == rest[i - 1] && chain[i + 1] == rest[i];
        }
      }
    }
  }

  lemma {:induction false} ProofsHaveChain(u: Token, i: nat, verifier: Key, r: Resolver, resource: string, ability: string,
                                           height: Token -> nat) returns (k: nat, rest: seq<Token>)
    requires Acyclic(r, height) && u.proofs.Listed? && i <= |u.proofs.cids|
    requires Unblocked(u, i, r, resource, ability)
    requires TryProofs(u, i, verifier, r, resource, ability, height) == OK
    ensures OpenChain(rest, verifier, r, resource, ability)
    ensures Link(u, k, rest[0], r, resource, ability) && Unblocked(u, k, r, resource, ability)
    decreases height(u), 0, |u.proofs.cids| - i
  {
    var cid := u.proofs.cids[i];
    assert Aligned(u, cid, r) ==> Witnesses(u, cid, r[cid].token, r);
    if Aligned(u, cid, r) && ValidateUcanPermission(r[cid].token, verifier, r, resource, ability, height) == OK {
      k := i;
      rest := AcceptedHasChain(r[cid].token, verifier, r, resource, ability, height);
    } else {
      k, rest := ProofsHaveChain(u, i + 1, verifier, r, resource, ability, height);
    }
  }

  lemma {:induction false} ChainIsAccepted(chain: seq<Token>, verifier: Key, r: Resolver, resource: string, ability: string,
                                           height: Token -> nat)
    requires Acyclic(r, height) && OpenChain(chain, verifier, r, resource, ability)
    ensures ValidateUcanPermission(chain[0], verifier, r, resource, ability, height) == OK
    decreases |chain|
  {
    if chain[0].issuer != KeyDid(verifier) {
      var rest := chain[1..];
      forall i | 0 <= i < |rest| - 1
        ensures OpenlyLinked(rest[i], rest[i + 1], r, resource, ability)
      {
        assert rest[i] == chain[i + 1] && rest[i + 1] == chain[i + 2];
      }
      ChainIsAccepted(rest, verifier, r, resource, ability, height);
      var k: nat :| Link(chain[0], k, chain[1], r, resource, ability) && Unblocked(chain[0], k, r, resource, ability);
      OpenProofAccepted(chain[0], 0, k, verifier, r, resource, ability, height);
    }
  }

  lemma {:induction false} OpenProofAccepted(u: Token, i: nat, k: nat, verifier: Key, r: Resolver, resource: string, ability: string,
                                             height: Token -> nat)
    requires Acyclic(r, height) && u.proofs.Listed? && i <= k < |u.proofs.cids| && u.proofs.cids[k] in r
    requires r[u.proofs.cids[k]].Encoded? && Link(u, k, r[u.proofs.cids[k]].token, r, resource, ability)
    requires Unblocked(u, k, r, resource, ability)
    requires ValidateUcanPermission(r[u.proofs.cids[k]].token, verifier, r, resource, ability, height) == OK
    ensures TryProofs(u, i, verifier, r, resource, ability, height) == OK
    decreases k - i
  {
    var cid := u.proofs.cids[i];
    if Aligned(u, cid, r) {
      assert Witnesses(u, cid, r[cid].token, r);
      assert Grants(r[cid].token, resource, ability);
    }
    if i < k {
      OpenProofAccepted(u, i + 1, k, verifier, r, resource, ability, height);
    }
  }

  // Main results

  /** A token is accepted exactly when an unblocked chain of proofs leads from it to the verifier. */
  lemma AcceptedIffOpenChain(u: Token, verifier: Key, r: Resolver, resource: string, ability: string, height: Token -> nat)
    requires Acyclic(r, height)
    ensures ValidateUcanPermission(u, verifier, r, resource, ability, height) == OK <==>
      exists chain :: OpenChain(chain, verifier, r, resource, ability) && chain[0] == u
  {
    if ValidateUcanPermission(u, verifier, r, resource, ability, height) == OK {
      var chain := AcceptedHasChain(u, verifier, r, resource, ability, height);
    }
    if chain :| OpenChain(chain, verifier, r, resource, ability) && chain[0] == u {
      ChainIsAccepted(chain, verifier, r, resource, ability, height);
    }
  }

  /** Some proof of `u` stands for a valid token issued to its issuer and without the grant. */
  ghost predicate LacksGrant(u: Token, r: Resolver, resource: string, ability: string) {
    u.proofs.Listed? && exists cid, parent :: cid in u.proofs.cids && Witnesses(u, cid, parent, r) && !Grants(parent, resource, ability)
  }

  lemma {:induction false} TryingFails(u: Token, i: nat, verifier: Key, r: Resolver, resource: string, ability: string,
                                       height: Token -> nat)
    requires Acyclic(r, height) && u.proofs.Listed? && i <= |u.proofs.cids| && Unblocked(u, i, r, resource, ability)
    requires TryProofs(u, i, verifier, r, resource, ability, height) != OK
    ensures TryProofs(u, i, verifier, r, resource, ability, height) ==
      Failure(if LacksGrant(u, r, resource, ability) then DelegationNotPermitted else ProofChainInvalid)
    decreases |u.proofs.cids| - i
  {
    if i < |u.proofs.cids| {
      var cid := u.proofs.cids[i];
      if Aligned(u, cid, r) {
        assert Witnesses(u, cid, r[cid].token, r);
      }
      if !Aligned(u, cid, r) || Grants(r[cid].token, resource, ability) {
        TryingFails(u, i + 1, verifier, r, resource, ability, height);
      }
    }
  }

  /** Its issuer, the want of proofs, a proof without the grant, or that no proof leads on. */
  ghost function NoChainReason(u: Token, r: Resolver, resource: string, ability: string): UcanError {
    if !u.issuer.KeyDid? then UnsupportedDid
    else if u.proofs.Absent? || u.proofs.cids == [] then ProofRequired
    else if LacksGrant(u, r, resource, ability) then DelegationNotPermitted
    else ProofChainInvalid
  }

  /** Why a token is refused: by its issuer, for want of proofs, for a proof without the grant, or because no proof leads on. */
  lemma RefusalReasons(u: Token, verifier: Key, r: Resolver, resource: string, ability: string, height: Token -> nat)
    requires Acyclic(r, height) && ValidateUcanPermission(u, verifier, r, resource, ability, height) != OK
    ensures ValidateUcanPermission(u, verifier, r, resource, ability, height) == Failure(NoChainReason(u, r, resource, ability))
  {
    if u.issuer.KeyDid? && u.proofs.Listed? && u.proofs.cids != [] {
      TryingFails(u, 0, verifier, r, resource, ability, height);
    }
  }

  /** Acceptance is sound: some chain of proofs, each aligned and carrying the capability, leads to the verifier. */
  lemma AcceptedMeansChain(u: Token, verifier: Key, r: Resolver, resource: string, ability: string, height: Token -> nat)
    requires Acyclic(r, height) && ValidateUcanPermission(u, verifier, r, resource, ability, height) == OK
    ensures exists chain :: Chain(chain, verifier, r, resource, ability) && chain[0] == u
  {
    var chain := AcceptedHasChain(u, verifier, r, resource, ability, height);
    forall i | 0 <= i < |chain| - 1 ensures Linked(chain[i], chain[i + 1], r, resource, ability) {
      var k: nat :| Link(chain[i], k, chain[i + 1], r, resource, ability) && Unblocked(chain[i], k, r, resource, ability);
    }
    assert Chain(chain, verifier, r, resource, ability);
  }

  ghost predicate AtMostOneProof(u: Token) {
    u.proofs.Listed? ==> |u.proofs.cids| <= 1
  }

  /** Where no token has more than one proof, every chain is found. */
  lemma CompleteWithOneProof(chain: seq<Token>, verifier: Key, r: Resolver, resource: string, ability: string, height: Token -> nat)
    requires Acyclic(r, height) && Chain(chain, verifier, r, resource, ability)
    requires forall i :: 0 <= i < |chain| ==> AtMostOneProof(chain[i])
    ensures ValidateUcanPermission(chain[0], verifier, r, resource, ability, height) == OK
  {
    forall i | 0 <= i < |chain| - 1
      ensures OpenlyLinked(chain[i], chain[i + 1], r, resource, ability)
    {
      var k: nat :| Link(chain[i], k, chain[i + 1], r, resource, ability);
      assert Unblocked(chain[i], k, r, resource, ability);
    }
    ChainIsAccepted(chain, verifier, r, resource, ability, height);
  }

  /** With two proofs a chain can be missed: an aligned first proof without the capability ends the search. */
  lemma SecondProofIsMissed(resource: string, ability: string)
    returns (chain: seq<Token>, verifier: Key, r: Resolver, height: Token -> nat)
    ensures Acyclic(r, height) && Chain(chain, verifier, r, resource, ability)
    ensures ValidateUcanPermission(chain[0], verifier, r, resource, ability, height) == Failure(DelegationNotPermitted)
  {
    var weak := Token(KeyDid("owner"), KeyDid("holder"), [], Absent, NoProof, true);
    var strong := weak.(capabilities := [Capability(resource, ability)]);
    var leaf := Token(KeyDid("holder"), KeyDid("guest"), [], Listed([CidOf(weak), CidOf(strong)]), NoProof, true);
    chain, verifier, r := [leaf, strong], "owner", map[CidOf(weak) := Encoded(weak), CidOf(strong) := Encoded(strong)];
    height := (u: Token) => if u.proofs.Absent? then 0 else 1;
    NamedIsCovered(resource, ability);
    assert Capability(resource, ability) in strong.capabilities;
    assert Link(leaf, 1, strong, r, resource, ability);
    assert Aligned(leaf, CidOf(weak), r);
    assert TryProofs(leaf, 0, verifier, r, resource, ability, height) == Failure(DelegationNotPermitted);
  }

  // A resolver that returns what a CID stands for

  ghost predicate ContentAddressed(r: Resolver) {
    forall cid :: cid in r && r[cid].Encoded? ==> cid == CidOf(r[cid].token)
  }

  ghost function Depth(u: Token): nat
    decreases u, if u.proofs.Listed? then |u.proofs.cids| + 2 else 0
  {
    if u.proofs.Absent? then 0 else 1 + DepthFrom(u, 0)
  }

  /** The depth of the deepest proof from the `i`th on. */
  ghost function DepthFrom(u: Token, i: nat): nat
    requires u.proofs.Listed? && i <= |u.proofs.cids|
    decreases u, |u.proofs.cids| - i + 1
  {
    if i == |u.proofs.cids| then 0
    else
      var first := if u.proofs.cids[i].CidOf? then Depth(u.proofs.cids[i].token) else 0;
      var rest := DepthFrom(u, i + 1);
      if first < rest then rest else first
  }

  lemma {:induction false} DepthOfMember(u: Token, i: nat, k: nat)
    requires u.proofs.Listed? && i <= k < |u.proofs.cids| && u.proofs.cids[k].CidOf?
    ensures Depth(u.proofs.cids[k].token) <= DepthFrom(u, i)
    decreases k - i
  {
    if i < k {
      DepthOfMember(u, i + 1, k);
    }
  }

  /** Looking proofs up by their content leaves no room for a cycle, so validation ends. */
  lemma ContentAddressedIsAcyclic(r: Resolver)
    requires ContentAddressed(r)
    ensures Acyclic(r, Depth)
  {
    forall u: Token, cid: Cid | u.proofs.Listed? && cid in u.proofs.cids && cid in r && r[cid].Encoded?
      ensures Depth(r[cid].token) < Depth(u)
    {
      var k: nat :| k < |u.proofs.cids| && u.proofs.cids[k] == cid;
      DepthOfMember(u, 0, k);
    }
  }
}
