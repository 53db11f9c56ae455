/**
 What the payloads of one resource exchange must satisfy while they are in flight, and what each
 of the three document messages does to the two sides.  `h` is the shared history: it holds every
 operation made so far.
 */
module Exchange {
  import opened Wrappers
  import opened Crdt
  import opened ResourceDocs

  ghost predicate DocsBelow(a: Docs, h: Docs) {
    forall k :: k in a ==> k in h && Below(a[k], h[k])
  }

  ghost predicate Grown(a: Docs, b: Docs) {
    a.Keys == b.Keys && DocsBelow(a, b)
  }

  predicate Synchronised(t: ResourceType, k: StateKey, a: Docs, b: Docs) {
    k in DocumentStateKeys(t) && k in a && k in b
  }

  /** A state vector request: empty updates, vectors the requesting side has reached. */
  ghost predicate RequestOk(t: ResourceType, initiator: Docs, p: Payload) {
    forall k ::
      && (k in p <==> k in DocumentStateKeys(t) && k in initiator)
      && (k in p ==>
        && p[k].updates.None?
        && p[k].stateVector.Some?
        && SvLe(p[k].stateVector.value, StateVectorOf(initiator[k])))
  }

  /** An update entry: it fits the receiver, reaches the vector it carries, and the sender has that vector. */
  ghost predicate EntryOk(e: DocData, sender: Doc, receiver: Doc, h: Doc) {
    && e.updates.Some?
    && e.stateVector.Some?
    && UpdateBelow(e.updates.value, h)
    && NoGap(receiver, e.updates.value)
    && Reaches(receiver, e.updates.value, e.stateVector.value)
    && SvLe(e.stateVector.value, StateVectorOf(sender))
  }

  ghost predicate UpdateOk(t: ResourceType, sender: Docs, receiver: Docs, h: Docs, p: Payload) {
    forall k ::
      && (k in p <==> Synchronised(t, k, sender, receiver))
      && (k in p ==> k in h && EntryOk(p[k], sender[k], receiver[k], h[k]))
  }

  /** The vectors in `p` are at least those of `base`. */
  ghost predicate Covers(p: Payload, base: Docs) {
    forall k :: k in p && k in base ==>
      p[k].stateVector.Some? && SvLe(StateVectorOf(base[k]), p[k].stateVector.value)
  }

  lemma SvLeTransitive(a: StateVector, b: StateVector, c: StateVector)
    requires SvLe(a, b) && SvLe(b, c)
    ensures SvLe(a, c)
  {
  }

  lemma BelowMeansSvLe(a: Doc, b: Doc)
    requires Below(a, b)
    ensures SvLe(StateVectorOf(a), StateVectorOf(b))
  {
    SvLeMeansBelow(a, b, b);
  }

  lemma RequestStaysOk(t: ResourceType, i: Docs, i': Docs, p: Payload)
    requires RequestOk(t, i, p) && Grown(i, i')
    ensures RequestOk(t, i', p)
  {
    forall k | k in p ensures SvLe(p[k].stateVector.value, StateVectorOf(i'[k])) {
      BelowMeansSvLe(i[k], i'[k]);
      SvLeTransitive(p[k].stateVector.value, StateVectorOf(i[k]), StateVectorOf(i'[k]));
    }
  }

  lemma EntryStaysOk(e: DocData, s: Doc, r: Doc, h: Doc, s': Doc, r': Doc, h': Doc)
    requires EntryOk(e, s, r, h) && Below(s, s') && Below(r, r') && Below(h, h')
    ensures EntryOk(e, s', r', h')
  {
    BelowMeansSvLe(s, s');
    SvLeTransitive(e.stateVector.value, StateVectorOf(s), StateVectorOf(s'));
    UpdateStaysBelow(e.updates.value, h, h');
    forall c ensures |LogOf(r, c)| <= |LogOf(r', c)| {
      assert LogOf(r, c) <= LogOf(r', c);
    }
    hide UpdateBelow, Below, SvLe;
  }

  lemma UpdateStaysBelow(u: Update, h: Doc, h': Doc)
    requires UpdateBelow(u, h) && Below(h, h')
    ensures UpdateBelow(u, h')
  {
    forall c | c in u ensures End(u, c) <= |LogOf(h', c)| && u[c].ops == LogOf(h', c)[u[c].start..End(u, c)] {
      assert LogOf(h, c) <= LogOf(h', c);
    }
  }

  lemma UpdateStaysOk(t: ResourceType, s: Docs, r: Docs, h: Docs, s': Docs, r': Docs, h': Docs, p: Payload)
    requires UpdateOk(t, s, r, h, p) && Grown(s, s') && Grown(r, r') && Grown(h, h')
    ensures UpdateOk(t, s', r', h', p)
  {
    forall k | k in p ensures k in h' && EntryOk(p[k], s'[k], r'[k], h'[k]) {
      EntryStaysOk(p[k], s[k], r[k], h[k], s'[k], r'[k], h'[k]);
    }
  }

  lemma RequestIsOk(t: ResourceType, i: Docs)
    ensures RequestOk(t, i, StateVectors(t, i))
  {
  }

  /** Answering a request changes nothing on the answering side and sends an update that fits. */
  lemma AnswerToRequest(t: ResourceType, i: Docs, r: Docs, h: Docs, p: Payload)
    requires RequestOk(t, i, p) && DocsBelow(r, h)
    ensures Synced(t, r, p) == r
    ensures UpdateOk(t, r, i, h, Reply(t, r, p))
    ensures Covers(Reply(t, r, p), r)
  {
    hide UpdateBelow, NoGap, Reaches, Diff, Below, DocumentStateKeys;
    var a := Reply(t, r, p);
    forall k | k in a ensures k in h && EntryOk(a[k], r[k], i[k], h[k]) {
      DiffBelow(r[k], p[k].stateVector.value, h[k]);
      DiffFits(r[k], p[k].stateVector.value, i[k]);
    }
  }

  /** One document: an entry that fits, taken in and answered. */
  lemma TakingInEntry(e: DocData, s: Doc, d: Doc, h: Doc)
    requires EntryOk(e, s, d, h) && Below(d, h)
    ensures Below(d, TakeIn(d, e)) && Below(TakeIn(d, e), h)
    ensures SvLe(e.stateVector.value, StateVectorOf(TakeIn(d, e)))
    ensures EntryOk(Answer(TakeIn(d, e), e.stateVector.value), TakeIn(d, e), s, h)
  {
    ApplyGrows(d, e.updates.value, h);
    DiffBelow(TakeIn(d, e), e.stateVector.value, h);
    DiffFits(TakeIn(d, e), e.stateVector.value, s);
  }

  /** Taking in an update that fits loses nothing and reaches the vector the update carries. */
  lemma TakingInUpdate(t: ResourceType, s: Docs, d: Docs, h: Docs, p: Payload)
    requires UpdateOk(t, s, d, h, p) && DocsBelow(d, h)
    ensures Grown(d, Synced(t, d, p)) && DocsBelow(Synced(t, d, p), h)
    ensures forall k :: k in p ==> SvLe(p[k].stateVector.value, StateVectorOf(Synced(t, d, p)[k]))
  {
    var d' := Synced(t, d, p);
    forall k | k in d
      ensures Below(d[k], d'[k]) && Below(d'[k], h[k])
      ensures k in p ==> SvLe(p[k].stateVector.value, StateVectorOf(d'[k]))
    {
      if k in p {
        TakingInEntry(p[k], s[k], d[k], h[k]);
      }
    }
  }

  /** The answer to an update that fits, fits the side the update came from. */
  lemma AnswerToUpdate(t: ResourceType, s: Docs, d: Docs, h: Docs, p: Payload)
    requires UpdateOk(t, s, d, h, p) && DocsBelow(d, h)
    ensures UpdateOk(t, Synced(t, d, p), s, h, Reply(t, d, p))
    ensures Covers(Reply(t, d, p), Synced(t, d, p))
    ensures Reply(t, d, p).Keys == p.Keys
  {
    hide UpdateBelow, NoGap, Reaches, Diff, Below, DocumentStateKeys, StateVectorOf, TakeIn;
    var d', a := Synced(t, d, p), Reply(t, d, p);
    assert a.Keys == p.Keys by {
      assert forall k :: k in p ==> Synchronised(t, k, s, d) && EntryOk(p[k], s[k], d[k], h[k]);
    }
    forall k | k in a ensures EntryOk(a[k], d'[k], s[k], h[k]) && a[k].stateVector.value == StateVectorOf(d'[k]) {
      assert EntryOk(p[k], s[k], d[k], h[k]);
      TakingInEntry(p[k], s[k], d[k], h[k]);
    }
  }

  /** `d` holds everything `base` holds, for each synchronised state key. */
  ghost predicate CaughtUp(t: ResourceType, d: Docs, base: Docs) {
    forall k :: Synchronised(t, k, d, base) ==> SvLe(StateVectorOf(base[k]), StateVectorOf(d[k]))
  }

  lemma GrownTransitive(a: Docs, b: Docs, c: Docs)
    requires Grown(a, b) && Grown(b, c)
    ensures Grown(a, c)
  {
  }

  lemma BelowGrown(a: Docs, h: Docs, h': Docs)
    requires DocsBelow(a, h) && Grown(h, h')
    ensures DocsBelow(a, h')
  {
  }

  lemma CaughtUpStays(t: ResourceType, d: Docs, d': Docs, base: Docs)
    requires CaughtUp(t, d, base) && Grown(d, d')
    ensures CaughtUp(t, d', base)
  {
    forall k | Synchronised(t, k, d', base) ensures SvLe(StateVectorOf(base[k]), StateVectorOf(d'[k])) {
      assert Synchronised(t, k, d, base);
      BelowMeansSvLe(d[k], d'[k]);
      SvLeTransitive(StateVectorOf(base[k]), StateVectorOf(d[k]), StateVectorOf(d'[k]));
    }
  }

  lemma CoversGrown(p: Payload, base: Docs, d: Docs)
    requires Covers(p, d) && Grown(base, d)
    ensures Covers(p, base)
  {
    forall k | k in p && k in base ensures p[k].stateVector.Some? && SvLe(StateVectorOf(base[k]), p[k].stateVector.value) {
      BelowMeansSvLe(base[k], d[k]);
      SvLeTransitive(StateVectorOf(base[k]), StateVectorOf(d[k]), p[k].stateVector.value);
    }
  }

  /** Reaching the vectors of a payload that covers `base` means having caught up with `base`. */
  lemma ReachedMeansCaughtUp(t: ResourceType, d: Docs, base: Docs, p: Payload)
    requires forall k :: k in p <==> Synchronised(t, k, base, d)
    requires Covers(p, base)
    requires forall k :: k in p && k in d ==> p[k].stateVector.Some? && SvLe(p[k].stateVector.value, StateVectorOf(d[k]))
    ensures CaughtUp(t, d, base)
  {
  }

  /** The most the two sides hold together. */
  function JoinDocs(a: Docs, b: Docs): Docs {
    map k | k in a.Keys + b.Keys ::
      if k in a && k in b then Join(a[k], b[k]) else if k in a then a[k] else b[k]
  }
}
