/**
 The search index as a list of stored documents, and the snapshot it is saved in and rebuilt from.
 */
module SearchIndex {
  import opened Wrappers

  type ResourceId = string

  /** A stored document; comments are one text, a line each. */
  datatype Stored = Stored(resourceId: ResourceId, title: string, content: string, folderId: string, comments: string)

  datatype SerializedDocument = SerializedDocument(
    resourceId: ResourceId, title: string, content: string, folderId: string, comments: seq<string>)

  const SNAPSHOT_LIMIT: nat := 10000

  // Comment lines

  function Join(lines: seq<string>): string {
    if lines == [] then ""
    else if |lines| == 1 then lines[0]
    else lines[0] + ['\n'] + Join(lines[1..])
  }

  /** As `split`: one more piece than there are newlines. */
  function Split(t: string): (lines: seq<string>)
    ensures lines != []
  {
    if t == "" then [""]
    else
      var rest := Split(t[1..]);
      if t[0] == '\n' then [""] + rest else [[t[0]] + rest[0]] + rest[1..]
  }

  /** Splitting is the inverse of joining: the pieces are the lines, none of which contains a line break. */
  lemma {:induction false} LinesOfSplit(t: string)
    ensures forall line :: line in Split(t) ==> '\n' !in line
  {
    if t != "" {
      LinesOfSplit(t[1..]);
    }
  }

  lemma {:induction false} SplitOfJoin(lines: seq<string>)
    requires lines != [] && forall line :: line in lines ==> '\n' !in line
    ensures Split(Join(lines)) == lines
  {
    if |lines| == 1 {
      SplitOfLine(lines[0]);
    } else {
      SplitOfJoin(lines[1..]);
      SplitOfFirst(lines[0], Join(lines[1..]));
      assert lines[0] + ['\n'] + Join(lines[1..]) == lines[0] + (['\n'] + Join(lines[1..]));
    }
  }

  lemma {:induction false} SplitOfLine(line: string)
    requires '\n' !in line
    ensures Split(line) == [line]
  {
    if line != "" {
      SplitOfLine(line[1..]);
      assert [line[0]] + line[1..] == line;
      assert [line] + [line[1..]][1..] == [line];
    }
  }

  lemma {:induction false} SplitOfFirst(line: string, rest: string)
    requires '\n' !in line
    ensures Split(line + (['\n'] + rest)) == [line] + Split(rest)
  {
    if line == "" {
      assert line + (['\n'] + rest) == ['\n'] + rest;
    } else {
      SplitOfFirst(line[1..], rest);
      assert (line + (['\n'] + rest))[1..] == line[1..] + (['\n'] + rest);
      assert [line[0]] + line[1..] == line;
      assert ([line[1..]] + Split(rest))[1..] == Split(rest);
    }
  }

  /** Joining what splitting gives is the identity. */
  lemma {:induction false} JoinOfSplit(t: string)
    ensures Join(Split(t)) == t
  {
    if t != "" {
      var rest := Split(t[1..]);
      JoinOfSplit(t[1..]);
      if t[0] == '\n' {
        assert ([""] + rest)[1..] == rest;
        assert Join([""] + rest) == "" + ['\n'] + Join(rest);
      } else {
        var lines := [[t[0]] + rest[0]] + rest[1..];
        assert lines[1..] == rest[1..];
        assert Join(lines) == [t[0]] + Join(rest);
      }
    }
  }

  function Serialised(d: Stored): SerializedDocument {
    SerializedDocument(d.resourceId, d.title, d.content, d.folderId, if d.comments == "" then [] else Split(d.comments))
  }

  /** Field by field, with the comments as lines. */
  predicate SameFields(d: SerializedDocument, s: Stored) {
    && d.resourceId == s.resourceId && d.title == s.title && d.content == s.content && d.folderId == s.folderId
    && Join(d.comments) == s.comments
  }

  function ToStored(d: SerializedDocument): Stored {
    Stored(d.resourceId, d.title, d.content, d.folderId, Join(d.comments))
  }

  /** A document survives being written to a snapshot and read back, whatever its comments contain. */
  lemma DocumentRoundTrip(d: Stored)
    ensures ToStored(Serialised(d)) == d
  {
    JoinOfSplit(d.comments);
  }

  // The list of documents as a map

  ghost predicate UniqueIds(docs: seq<Stored>) {
    forall i, j :: 0 <= i < j < |docs| ==> docs[i].resourceId != docs[j].resourceId
  }

  function Contents(docs: seq<Stored>): map<ResourceId, Stored> {
    if docs == [] then map[] else Contents(docs[..|docs| - 1])[docs[|docs| - 1].resourceId := docs[|docs| - 1]]
  }

  /** Deleting a term removes every document that has it. */
  function Without(docs: seq<Stored>, id: ResourceId): seq<Stored> {
    if docs == [] then []
    else Without(docs[..|docs| - 1], id) + (if docs[|docs| - 1].resourceId == id then [] else [docs[|docs| - 1]])
  }

  lemma {:induction false} ContentsIn(docs: seq<Stored>)
    ensures forall d :: d in docs ==> d.resourceId in Contents(docs)
    ensures forall id :: id in Contents(docs) ==> Contents(docs)[id] in docs && Contents(docs)[id].resourceId == id
  {
    if docs != [] {
      ContentsIn(docs[..|docs| - 1]);
      assert docs == docs[..|docs| - 1] + [docs[|docs| - 1]];
    }
  }

  lemma WithoutLast(docs: seq<Stored>, id: ResourceId)
    requires docs != []
    ensures var front, last := docs[..|docs| - 1], docs[|docs| - 1];
      && docs == front + [last]
      && Without(docs, id) == (if last.resourceId == id then Without(front, id) else Without(front, id) + [last])
      && Contents(docs) == Contents(front)[last.resourceId := last]
  {
  }

  lemma {:induction false} WithoutContents(docs: seq<Stored>, id: ResourceId)
    ensures Contents(Without(docs, id)) == Contents(docs) - {id}
  {
    if docs != [] {
      hide Without, Contents;
      var front, last := docs[..|docs| - 1], docs[|docs| - 1];
      WithoutLast(docs, id);
      WithoutContents(front, id);
      RemovedUpdate(Contents(front), id, last);
      if last.resourceId != id {
        AppendedContents(Without(front, id), last);
      }
    }
  }

  lemma RemovedUpdate(m: map<ResourceId, Stored>, id: ResourceId, d: Stored)
    ensures m[d.resourceId := d] - {id} == if d.resourceId == id then m - {id} else (m - {id})[d.resourceId := d]
  {
  }

  lemma {:induction false} WithoutMembers(docs: seq<Stored>, id: ResourceId)
    ensures forall d :: d in Without(docs, id) <==> d in docs && d.resourceId != id
  {
    if docs != [] {
      WithoutLast(docs, id);
      WithoutMembers(docs[..|docs| - 1], id);
      hide Without;
    }
  }

  lemma AppendedUnique(docs: seq<Stored>, d: Stored)
    requires UniqueIds(docs) && forall x :: x in docs ==> x.resourceId != d.resourceId
    ensures UniqueIds(docs + [d])
  {
  }

  lemma {:induction false} WithoutUnique(docs: seq<Stored>, id: ResourceId)
    requires UniqueIds(docs)
    ensures UniqueIds(Without(docs, id))
  {
    if docs != [] {
      var front, last := docs[..|docs| - 1], docs[|docs| - 1];
      WithoutLast(docs, id);
      WithoutUnique(front, id);
      WithoutMembers(front, id);
      hide Without;
      if last.resourceId != id {
        AppendedUnique(Without(front, id), last);
      }
    }
  }

  /** Deleting an id and appending a document with that id: the list stays unique and maps the id to the document. */
  lemma Replaced(docs: seq<Stored>, d: Stored)
    requires UniqueIds(docs)
    ensures UniqueIds(Without(docs, d.resourceId) + [d])
    ensures Contents(Without(docs, d.resourceId) + [d]) == Contents(docs)[d.resourceId := d]
  {
    hide Without, Contents, UniqueIds;
    WithoutUnique(docs, d.resourceId);
    WithoutMembers(docs, d.resourceId);
    WithoutContents(docs, d.resourceId);
    AppendedUnique(Without(docs, d.resourceId), d);
    AppendedContents(Without(docs, d.resourceId), d);
    assert (Contents(docs) - {d.resourceId})[d.resourceId := d] == Contents(docs)[d.resourceId := d];
  }

  lemma {:induction false} WithoutAbsent(docs: seq<Stored>, id: ResourceId)
    requires forall d :: d in docs ==> d.resourceId != id
    ensures Without(docs, id) == docs
  {
    if docs != [] {
      WithoutLast(docs, id);
      assert docs[|docs| - 1] in docs;
      WithoutAbsent(docs[..|docs| - 1], id);
      hide Without;
    }
  }

  lemma AppendedContents(docs: seq<Stored>, d: Stored)
    ensures Contents(docs + [d]) == Contents(docs)[d.resourceId := d]
  {
  }

  class Index {
    /** What the writer holds, and what a reader sees since the last commit and reload. */
    var written: seq<Stored>
    var visible: seq<Stored>

    constructor ()
      ensures written == [] && visible == []
    {
      written, visible := [], [];
    }

    method DeleteTerm(id: ResourceId)
      modifies this`written
      ensures written == Without(old(written), id)
    {
      var kept: seq<Stored> := [];
      for i := 0 to |written|
        invariant kept == Without(written[..i], id)
        invariant written == old(written)
      {
        assert written[..i + 1][..i] == written[..i];
        if written[i].resourceId != id {
          kept := kept + [written[i]];
        }
      }
      assert written[..|written|] == written;
      written := kept;
    }

    /** At most one document per resource id; indexing replaces. */
    method IndexDocument(d: SerializedDocument)
      requires UniqueIds(written)
      modifies this`written
      ensures written == Without(old(written), d.resourceId) + [ToStored(d)]
      ensures SameFields(d, written[|written| - 1])
      ensures forall x :: x in written[..|written| - 1] <==> x in old(written) && x.resourceId != d.resourceId
      ensures UniqueIds(written)
      ensures Contents(written) == Contents(old(written))[d.resourceId := ToStored(d)]
    {
      Replaced(written, ToStored(d));
      WithoutMembers(written, d.resourceId);
      DeleteTerm(d.resourceId);
      written := written + [ToStored(d)];
    }

    method DeleteDocument(id: ResourceId)
      requires UniqueIds(written)
      modifies this`written
      ensures UniqueIds(written) && Contents(written) == Contents(old(written)) - {id}
      ensures forall x :: x in written <==> x in old(written) && x.resourceId != id
    {
      WithoutMembers(written, id);
      WithoutUnique(written, id);
      WithoutContents(written, id);
      DeleteTerm(id);
    }

    method Commit()
      modifies this`visible
      ensures visible == written
    {
      visible := written;
    }

    /** The documents a reader sees, as far as the limit of the search goes. */
    method ExtractAllDocuments() returns (documents: seq<SerializedDocument>)
      ensures |documents| == if |visible| < SNAPSHOT_LIMIT then |visible| else SNAPSHOT_LIMIT
      ensures |documents| == if |visible| < 10000 then |visible| else 10000
      ensures forall i :: 0 <= i < |documents| ==> documents[i] == Serialised(visible[i]) && SameFields(documents[i], visible[i])
      ensures forall i :: 0 <= i < |documents| ==> if visible[i].comments == "" then documents[i].comments == []
        else documents[i].comments != [] && forall line :: line in documents[i].comments ==> '\n' !in line
    {
      documents := [];
      var n := if |visible| < SNAPSHOT_LIMIT then |visible| else SNAPSHOT_LIMIT;
      for i := 0 to n
        invariant |documents| == i
        invariant forall j :: 0 <= j < i ==> documents[j] == Serialised(visible[j]) && SameFields(documents[j], visible[j])
        invariant forall j :: 0 <= j < i ==> if visible[j].comments == "" then documents[j].comments == []
          else documents[j].comments != [] && forall line :: line in documents[j].comments ==> '\n' !in line
      {
        hide Split, Join;
        var doc := visible[i];
        var comments := [];
        if doc.comments != "" {
          comments := Split(doc.comments);
        }
        JoinOfSplit(doc.comments);
        LinesOfSplit(doc.comments);
        documents := documents + [SerializedDocument(doc.resourceId, doc.title, doc.content, doc.folderId, comments)];
      }
    }

    /** A new index, rebuilt from the snapshot by indexing its documents in turn. */
    method RestoreFromSnapshot(documents: seq<SerializedDocument>)
      modifies this
      ensures written == visible && UniqueIds(visible)
      ensures Contents(visible) == LastOf(documents)
      ensures DistinctIds(documents) ==> visible == AllStored(documents)
    {
      written, visible := [], [];
      RestoredNothing(documents);
      for i := 0 to |documents|
        invariant UniqueIds(written)
        invariant Contents(written) == LastOf(documents[..i])
        invariant DistinctIds(documents) ==> written == AllStored(documents[..i])
      {
        hide Without, Contents, UniqueIds, Join, AllStored, LastOf, DistinctIds;
        RestoredNext(documents, i);
        if DistinctIds(documents) {
          WithoutAbsent(written, documents[i].resourceId);
        }
        IndexDocument(documents[i]);
      }
      assert documents[..|documents|] == documents;
      Commit();
    }
  }

  lemma RestoredNothing(documents: seq<SerializedDocument>)
    ensures AllStored(documents[..0]) == [] && LastOf(documents[..0]) == map[]
  {
  }

  lemma RestoredNext(documents: seq<SerializedDocument>, i: nat)
    requires i < |documents|
    ensures AllStored(documents[..i + 1]) == AllStored(documents[..i]) + [ToStored(documents[i])]
    ensures LastOf(documents[..i + 1]) == LastOf(documents[..i])[documents[i].resourceId := ToStored(documents[i])]
    ensures DistinctIds(documents) ==> forall d :: d in AllStored(documents[..i]) ==> d.resourceId != documents[i].resourceId
  {
    assert documents[..i + 1][..i] == documents[..i];
    if DistinctIds(documents) {
      NewId(documents, i);
    }
  }

  ghost predicate DistinctIds(documents: seq<SerializedDocument>) {
    forall i, j :: 0 <= i < j < |documents| ==> documents[i].resourceId != documents[j].resourceId
  }

  function AllStored(documents: seq<SerializedDocument>): (docs: seq<Stored>)
    ensures |docs| == |documents| && forall i :: 0 <= i < |docs| ==> docs[i] == ToStored(documents[i])
  {
    if documents == [] then [] else AllStored(documents[..|documents| - 1]) + [ToStored(documents[|documents| - 1])]
  }

  lemma NewId(documents: seq<SerializedDocument>, i: nat)
    requires DistinctIds(documents) && i < |documents|
    ensures forall d :: d in AllStored(documents[..i]) ==> d.resourceId != documents[i].resourceId
  {
  }

  /** For each id the last document of the list. */
  function LastOf(documents: seq<SerializedDocument>): map<ResourceId, Stored> {
    if documents == [] then map[]
    else LastOf(documents[..|documents| - 1])[documents[|documents| - 1].resourceId := ToStored(documents[|documents| - 1])]
  }

  /** Saving an index and restoring the snapshot gives the same documents back exactly up to the limit of the search. */
  method SaveAndRestore(index: Index) returns (restored: Index)
    requires UniqueIds(index.visible)
    ensures fresh(restored) && restored.visible == restored.written
    ensures restored.visible == index.visible[..if |index.visible| < 10000 then |index.visible| else 10000]
    ensures restored.visible == index.visible <==> |index.visible| <= 10000
  {
    var documents := index.ExtractAllDocuments();
    restored := new Index();
    restored.RestoreFromSnapshot(documents);
    forall i | 0 <= i < |documents| ensures AllStored(documents)[i] == index.visible[i] {
      DocumentRoundTrip(index.visible[i]);
    }
  }
}
