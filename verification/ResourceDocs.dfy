/**
 The document states of a decrypted resource and the two operations the sync exchange performs on
 them: listing state vectors, and taking in a peer's payload while answering it.
 */
module ResourceDocs {
  import opened Wrappers
  import opened Crdt

  type StateKey = string

  datatype ResourceType = Notes | Chat | Default

  function DocumentStateKeys(t: ResourceType): seq<StateKey> {
    match t
    case Notes => ["main_doc", "image_state", "comment_state"]
    case Chat => ["chat", "image_state"]
    case Default => ["yjs_state"]
  }

  /** The state keys that hold documents, by resource type. */
  predicate IsDocumentKey(t: ResourceType, k: StateKey) {
    || (t.Notes? && k in {"main_doc", "image_state", "comment_state"})
    || (t.Chat? && k in {"chat", "image_state"})
    || (t.Default? && k == "yjs_state")
  }

  lemma DocumentKeysAre(t: ResourceType)
    ensures forall k :: k in DocumentStateKeys(t) <==> IsDocumentKey(t, k)
  {
  }

  /** The document states a resource stores, by state key. */
  type Docs = map<StateKey, Doc>

  /** One entry of a sync payload; None stands for the empty byte array. */
  datatype DocData = DocData(updates: Option<Update>, stateVector: Option<StateVector>)

  type Payload = map<StateKey, DocData>

  /** The answer to one entry, once its updates are in `doc`. */
  function Answer(doc: Doc, sv: StateVector): DocData {
    DocData(Some(Diff(doc, sv)), Some(StateVectorOf(doc)))
  }

  function TakeIn(doc: Doc, input: DocData): Doc {
    if input.updates.Some? then Apply(doc, input.updates.value) else doc
  }

  function StateVectors(t: ResourceType, docs: Docs): Payload {
    map k | k in DocumentStateKeys(t) && k in docs :: DocData(None, Some(StateVectorOf(docs[k])))
  }

  /** The documents after `input` arrived, when the state keys `keys` are looked at. */
  function SyncedAt(keys: seq<StateKey>, docs: Docs, input: Payload): Docs {
    map k | k in docs :: if k in keys && k in input then TakeIn(docs[k], input[k]) else docs[k]
  }

  /** What is sent back for `input`, when the state keys `keys` are looked at. */
  function ReplyAt(keys: seq<StateKey>, docs: Docs, input: Payload): Payload {
    map k | k in keys && k in docs && k in input && input[k].stateVector.Some? ::
      Answer(TakeIn(docs[k], input[k]), input[k].stateVector.value)
  }

  function Synced(t: ResourceType, docs: Docs, input: Payload): Docs {
    SyncedAt(DocumentStateKeys(t), docs, input)
  }

  function Reply(t: ResourceType, docs: Docs, input: Payload): Payload {
    ReplyAt(DocumentStateKeys(t), docs, input)
  }

  lemma SyncedAtNext(keys: seq<StateKey>, docs: Docs, input: Payload, key: StateKey)
    requires key !in keys
    ensures SyncedAt(keys + [key], docs, input) ==
      if key in docs && key in input
      then SyncedAt(keys, docs, input)[key := TakeIn(docs[key], input[key])]
      else SyncedAt(keys, docs, input)
    ensures SyncedAt(keys, docs, input).Keys == docs.Keys
    ensures key in docs ==> SyncedAt(keys, docs, input)[key] == docs[key]
  {
  }

  lemma ReplyAtNext(keys: seq<StateKey>, docs: Docs, input: Payload, key: StateKey)
    requires key !in keys
    ensures ReplyAt(keys + [key], docs, input) ==
      if key in docs && key in input && input[key].stateVector.Some?
      then ReplyAt(keys, docs, input)[key := Answer(TakeIn(docs[key], input[key]), input[key].stateVector.value)]
      else ReplyAt(keys, docs, input)
  {
  }

  lemma NothingSynced(docs: Docs, input: Payload)
    ensures SyncedAt([], docs, input) == docs && ReplyAt([], docs, input) == map[]
  {
  }

  /** The documents of the listed keys have the updates of the input in, and nothing else has changed. */
  ghost predicate TakenIn(t: ResourceType, before: Docs, after: Docs, input: Payload) {
    && after.Keys == before.Keys
    && forall k :: k in before ==>
         if IsDocumentKey(t, k) && k in input && input[k].updates.Some?
         then after[k] == Apply(before[k], input[k].updates.value)
         else after[k] == before[k]
  }

  /** Every listed state vector is answered with what it lacks of the document as it is now, and with its state vector. */
  ghost predicate Answers(t: ResourceType, docs: Docs, answer: Payload, input: Payload) {
    && (forall k :: k in answer <==> k in docs && IsDocumentKey(t, k) && k in input && input[k].stateVector.Some?)
    && (forall k :: k in answer && k in docs && k in input && input[k].stateVector.Some? ==>
          answer[k] == DocData(Some(Diff(docs[k], input[k].stateVector.value)), Some(StateVectorOf(docs[k]))))
  }

  lemma SyncMeans(t: ResourceType, docs: Docs, input: Payload)
    ensures TakenIn(t, docs, Synced(t, docs, input), input)
    ensures Answers(t, Synced(t, docs, input), Reply(t, docs, input), input)
  {
    DocumentKeysAre(t);
    hide DocumentStateKeys, IsDocumentKey;
  }

  class DecryptedResource {
    const resourceType: ResourceType
    var data: Docs

    constructor (resourceType: ResourceType, data: Docs)
      ensures this.resourceType == resourceType && this.data == data
    {
      this.resourceType := resourceType;
      this.data := data;
    }

    method GetStateVectors() returns (result: Payload)
      ensures result == StateVectors(resourceType, data)
      ensures result == map k | k in data && IsDocumentKey(resourceType, k) :: DocData(None, Some(StateVectorOf(data[k])))
    {
      DocumentKeysAre(resourceType);
      hide DocumentStateKeys, IsDocumentKey, StateVectorOf;
      result := map[];
      var keys := DocumentStateKeys(resourceType);
      for i := 0 to |keys|
        invariant result == map k | k in keys[..i] && k in data :: DocData(None, Some(StateVectorOf(data[k])))
      {
        if keys[i] in data {
          result := result[keys[i] := DocData(None, Some(StateVectorOf(data[keys[i]])))];
        }
      }
      assert keys[..|keys|] == keys;
    }

    /** Takes in the updates of every listed state key and answers every state vector. */
    method SyncUpdates(input: Payload) returns (result: Payload)
      modifies this`data
      ensures data == Synced(resourceType, old(data), input)
      ensures result == Reply(resourceType, old(data), input)
      ensures TakenIn(resourceType, old(data), data, input) && Answers(resourceType, data, result, input)
    {
      hide TakenIn, Answers, SyncedAt, ReplyAt;
      SyncMeans(resourceType, data, input);
      NothingSynced(data, input);
      result := map[];
      var keys := DocumentStateKeys(resourceType);
      for i := 0 to |keys|
        invariant data == SyncedAt(keys[..i], old(data), input)
        invariant result == ReplyAt(keys[..i], old(data), input)
      {
        var key := keys[i];
        assert keys[..i + 1] == keys[..i] + [key];
        SyncedAtNext(keys[..i], old(data), input, key);
        ReplyAtNext(keys[..i], old(data), input, key);
        if key in data {
          if key in input {
            var doc := data[key];
            if input[key].updates.Some? {
              doc := Apply(doc, input[key].updates.value);
            }
            if input[key].stateVector.Some? {
              result := result[key := Answer(doc, input[key].stateVector.value)];
            }
            if input[key].updates.Some? {
              data := data[key := doc];
            }
          }
        }
      }
      assert keys[..|keys|] == keys;
    }
  }
}
