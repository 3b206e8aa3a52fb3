/**
 Model of `convertCollectionsSnapshotToMap`: a snapshot of quiz documents is
 first mapped to collection records and then folded into a dictionary keyed
 by the lower-cased title.

 `String.prototype.toLowerCase` and the global `encodeURI` are not modelled
 internally; they are the parameters `lower` and `encodeURI`. Beyond being
 applied consistently, the model assumes that both return a string for every
 title: the URIError that `encodeURI` throws on an unpaired surrogate is not
 modelled (a Dafny string holds no surrogates).
 */
module QuizCollections {

  /** One document of `collections.docs`: its store-assigned `id` and the
      `title` and `questions` fields of `doc.data()`. */
  datatype DocSnapshot<Q> = DocSnapshot(id: string, title: string, questions: Q)

  /** The record built for each document. */
  datatype Collection<Q> = Collection(routeName: string, id: string, title: string, questions: Q)

  /** The callback of `collections.docs.map`. */
  function ToCollection<Q>(doc: DocSnapshot<Q>, lower: string -> string, encodeURI: string -> string)
    : (c: Collection<Q>)
    ensures c.id == doc.id && c.title == doc.title && c.questions == doc.questions
    ensures c.routeName == encodeURI(lower(doc.title))
  {
    Collection(encodeURI(lower(doc.title)), doc.id, doc.title, doc.questions)
  }

  /** The map step: one record per document, in document order. */
  function Transform<Q>(docs: seq<DocSnapshot<Q>>, lower: string -> string, encodeURI: string -> string)
    : (r: seq<Collection<Q>>)
    ensures |r| == |docs|
    ensures forall i :: 0 <= i < |docs| ==>
              && r[i].id == docs[i].id
              && r[i].title == docs[i].title
              && r[i].questions == docs[i].questions
              && r[i].routeName == encodeURI(lower(docs[i].title))
  {
    if docs == [] then []
    else [ToCollection(docs[0], lower, encodeURI)] + Transform(docs[1..], lower, encodeURI)
  }

  /** The reduce step as a left fold: each record is stored under its
      lower-cased title, overwriting whatever an earlier record put there. */
  function Reduce<Q>(recs: seq<Collection<Q>>, lower: string -> string): (m: map<string, Collection<Q>>)
    ensures m.Keys == set c | c in recs :: lower(c.title)
    decreases |recs|
  {
    if recs == [] then map[]
    else
      var last := recs[|recs| - 1];
      var prefix := recs[..|recs| - 1];
      assert recs == prefix + [last];
      Reduce(prefix, lower)[lower(last.title) := last]
  }

  /** What `convertCollectionsSnapshotToMap(collections)` returns. */
  function SnapshotToMap<Q>(docs: seq<DocSnapshot<Q>>, lower: string -> string, encodeURI: string -> string)
    : (m: map<string, Collection<Q>>)
    ensures m.Keys == set d | d in docs :: lower(d.title)
  {
    Reduce(Transform(docs, lower, encodeURI), lower)
  }

  /** The record of a document is the one kept in the map when no later
      document has the same lower-cased title. */
  ghost predicate LastWithKey<Q>(docs: seq<DocSnapshot<Q>>, lower: string -> string, j: int)
  {
    0 <= j < |docs| &&
    forall j' :: j < j' < |docs| ==> lower(docs[j'].title) != lower(docs[j].title)
  }

  /** The fold never yields more entries than it was given records. */
  lemma {:induction false} ReduceSize<Q>(recs: seq<Collection<Q>>, lower: string -> string)
    ensures |Reduce(recs, lower)| <= |recs|
    decreases |recs|
  {
    if recs != [] {
      var last := recs[|recs| - 1];
      var prefix := recs[..|recs| - 1];
      var before := Reduce(prefix, lower);
      ReduceSize(prefix, lower);
      assert Reduce(recs, lower).Keys == before.Keys + {lower(last.title)};
    }
  }

  /** Last write wins in the fold. */
  lemma {:induction false} ReduceLastWins<Q>(recs: seq<Collection<Q>>, lower: string -> string, j: int)
    requires 0 <= j < |recs|
    requires forall j' :: j < j' < |recs| ==> lower(recs[j'].title) != lower(recs[j].title)
    ensures lower(recs[j].title) in Reduce(recs, lower)
    ensures Reduce(recs, lower)[lower(recs[j].title)] == recs[j]
    decreases |recs|
  {
    var prefix := recs[..|recs| - 1];
    if j < |recs| - 1 {
      assert forall j' :: j < j' < |prefix| ==> prefix[j'] == recs[j'];
      ReduceLastWins(prefix, lower, j);
    }
  }

  /** `recs[j]` is the last record whose lower-cased title is `k`. */
  ghost predicate LastRecordFor<Q>(recs: seq<Collection<Q>>, lower: string -> string, k: string, j: int)
  {
    0 <= j < |recs| && lower(recs[j].title) == k &&
    forall j' :: j < j' < |recs| ==> lower(recs[j'].title) != k
  }

  /** Every entry of the fold is the last record carrying its key. */
  lemma {:induction false} ReduceSource<Q>(recs: seq<Collection<Q>>, lower: string -> string, k: string)
    returns (j: int)
    requires k in Reduce(recs, lower)
    ensures LastRecordFor(recs, lower, k, j) && Reduce(recs, lower)[k] == recs[j]
    decreases |recs|
  {
    var last := recs[|recs| - 1];
    var prefix := recs[..|recs| - 1];
    if lower(last.title) != k {
      j := ReduceSource(prefix, lower, k);
      assert recs[j] == prefix[j];
      assert forall j' :: j < j' < |prefix| ==> recs[j'] == prefix[j'];
    } else {
      j := |recs| - 1;
    }
  }

  /** There are never more entries than documents, and no documents give the
      empty map. */
  lemma SnapshotToMapSize<Q>(docs: seq<DocSnapshot<Q>>, lower: string -> string, encodeURI: string -> string)
    ensures |SnapshotToMap(docs, lower, encodeURI)| <= |docs|
    ensures docs == [] ==> SnapshotToMap(docs, lower, encodeURI) == map[]
  {
    ReduceSize(Transform(docs, lower, encodeURI), lower);
  }

  /** Every entry is filed under its own lower-cased title, and its route name
      is the URI encoding of that key. */
  lemma {:induction false} EntriesKeyedByTitle<Q>(docs: seq<DocSnapshot<Q>>, lower: string -> string, encodeURI: string -> string)
    ensures forall k :: k in SnapshotToMap(docs, lower, encodeURI) ==>
              && k == lower(SnapshotToMap(docs, lower, encodeURI)[k].title)
              && SnapshotToMap(docs, lower, encodeURI)[k].routeName == encodeURI(k)
  {
    var recs := Transform(docs, lower, encodeURI);
    forall k | k in Reduce(recs, lower)
      ensures k == lower(Reduce(recs, lower)[k].title) && Reduce(recs, lower)[k].routeName == encodeURI(k)
    {
      var j := ReduceSource(recs, lower, k);
    }
  }

  /** Last write wins: the record of a document whose lower-cased title no
      later document repeats is the one stored under that title. */
  lemma {:induction false} LastWriteWins<Q>(docs: seq<DocSnapshot<Q>>, lower: string -> string, encodeURI: string -> string, j: int)
    requires LastWithKey(docs, lower, j)
    ensures lower(docs[j].title) in SnapshotToMap(docs, lower, encodeURI)
    ensures SnapshotToMap(docs, lower, encodeURI)[lower(docs[j].title)] == ToCollection(docs[j], lower, encodeURI)
  {
    var recs := Transform(docs, lower, encodeURI);
    assert forall j' :: j < j' < |recs| ==> lower(recs[j'].title) != lower(recs[j].title) by {
      forall j' | j < j' < |recs| ensures lower(recs[j'].title) != lower(recs[j].title) {
        assert recs[j'].title == docs[j'].title;
      }
    }
    ReduceLastWins(recs, lower, j);
  }

  /** Conversely, every entry is the record of the last document with that
      lower-cased title. */
  lemma {:induction false} EntryFromLastDoc<Q>(docs: seq<DocSnapshot<Q>>, lower: string -> string, encodeURI: string -> string, k: string)
    returns (j: int)
    requires k in SnapshotToMap(docs, lower, encodeURI)
    ensures LastWithKey(docs, lower, j) && lower(docs[j].title) == k
    ensures SnapshotToMap(docs, lower, encodeURI)[k] == ToCollection(docs[j], lower, encodeURI)
  {
    var recs := Transform(docs, lower, encodeURI);
    j := ReduceSource(recs, lower, k);
    assert recs[j] == ToCollection(docs[j], lower, encodeURI);
    assert LastWithKey(docs, lower, j) by {
      forall j' | j < j' < |docs| ensures lower(docs[j'].title) != lower(docs[j].title) {
        assert recs[j'].title == docs[j'].title;
      }
    }
  }

  /** Two documents whose titles differ only in case ("Math Quiz" and
      "math quiz") give a single entry holding the second one. */
  lemma CaseCollisionKeepsSecond<Q>(d1: DocSnapshot<Q>, d2: DocSnapshot<Q>, lower: string -> string, encodeURI: string -> string)
    requires lower(d1.title) == lower(d2.title)
    ensures SnapshotToMap([d1, d2], lower, encodeURI) == map[lower(d2.title) := ToCollection(d2, lower, encodeURI)]
  {
  }

  /** `convertCollectionsSnapshotToMap`: the `map` step, then the `reduce`
      loop that writes each record into the accumulator. */
  method ConvertCollectionsSnapshotToMap<Q>(docs: seq<DocSnapshot<Q>>, lower: string -> string, encodeURI: string -> string)
    returns (accumulator: map<string, Collection<Q>>)
    ensures accumulator == SnapshotToMap(docs, lower, encodeURI)
    ensures accumulator.Keys == set d | d in docs :: lower(d.title)
    ensures forall k :: k in accumulator ==>
              k == lower(accumulator[k].title) && accumulator[k].routeName == encodeURI(k)
  {
    var transformed := Transform(docs, lower, encodeURI);
    accumulator := map[];
    var i := 0;
    while i < |transformed|
      invariant 0 <= i <= |transformed|
      invariant accumulator == Reduce(transformed[..i], lower)
    {
      var collection := transformed[i];
      assert transformed[..i + 1][..i] == transformed[..i];
      accumulator := accumulator[lower(collection.title) := collection];
      i := i + 1;
    }
    assert transformed[..i] == transformed;
    EntriesKeyedByTitle(docs, lower, encodeURI);
  }
}
