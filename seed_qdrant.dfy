/**
 * Seeding the vector store: every section (`Paragraf`) with some text is
 * embedded and uploaded with the metadata of its statute, under consecutive
 * point ids, in batches of at most `BatchSize`.
 *
 * The embedding service is the parameter `embed`: the vectors it returns for
 * a list of texts (their values are opaque; only their number is looked at).
 * The collection is a log: the batches passed to `upsert`, in order.
 */
module SeedQdrant {
  import opened PyStr
  import opened Types

  /** How many texts are collected before they are embedded and uploaded. */
  const BatchSize: nat := 100

  /** The text embedded to learn the vector size before anything else. */
  const SampleText := "Sample text to determine vector size"

  /** One uploaded point: its id, its vector and its payload. */
  datatype Point<V> = Point(id: nat, vector: V, payload: RelevantDocument)

  /** The payload stored with a section: the statute's metadata and the section itself. */
  function Payload(law: Law, para: Paragraf): (d: RelevantDocument)
    ensures d.lawNazev == law.nazev && d.lawId == law.id && d.lawYear == law.year
    ensures d.lawCategory == law.category && d.lawDate == law.date && d.lawStaleURL == law.staleURL
    ensures d.paragraphCislo == para.cislo && d.paragraphZneni == para.zneni
  {
    RelevantDocument(law.nazev, law.id, law.year, law.category, law.date, law.staleURL, para.cislo, para.zneni)
  }

  /** `not paragraph_text.strip()`: the section has no text worth embedding. */
  predicate Blank(para: Paragraf) {
    Strip(para.zneni) == []
  }

  /** The payloads of the sections of `law` among `ps` that are not blank, in order. */
  function KeptIn(law: Law, ps: seq<Paragraf>): seq<RelevantDocument> {
    if ps == [] then []
    else
      var last := ps[|ps| - 1];
      KeptIn(law, ps[..|ps| - 1]) + (if Blank(last) then [] else [Payload(law, last)])
  }

  /** The payloads of every section that is not blank, statute by statute, section by section. */
  function Kept(laws: seq<Law>): seq<RelevantDocument> {
    if laws == [] then []
    else
      var last := laws[|laws| - 1];
      Kept(laws[..|laws| - 1]) + KeptIn(last, last.paragrafy)
  }

  /** The texts to embed: the section texts of the payloads. */
  function Texts(docs: seq<RelevantDocument>): seq<string> {
    seq(|docs|, k requires 0 <= k < |docs| => docs[k].paragraphZneni)
  }

  /** `zip(point_ids, embeddings, payloads)` made into points. */
  function Zip<V>(ids: seq<nat>, vectors: seq<V>, payloads: seq<RelevantDocument>): seq<Point<V>>
    requires |ids| == |vectors| == |payloads|
  {
    seq(|ids|, k requires 0 <= k < |ids| => Point(ids[k], vectors[k], payloads[k]))
  }

  /** The ids `base`, `base + 1`, ... for `n` points. */
  function IdsFrom(base: nat, n: nat): seq<nat> {
    seq(n, k requires 0 <= k < n => base + k)
  }

  /**
   * What one flush adds to the collection: the batch, numbered from `base`,
   * or nothing when the embedding service answers with another number of
   * vectors than there are texts.
   */
  function Flush<V>(docs: seq<RelevantDocument>, base: nat, embed: seq<string> -> seq<V>): seq<seq<Point<V>>> {
    var vectors := embed(Texts(docs));
    if |vectors| != |docs| then [] else [Zip(IdsFrom(base, |docs|), vectors, docs)]
  }

  /** The uploads for `docs`, numbered from `base`, cut into batches of `BatchSize` and a shorter last one. */
  function Batches<V>(docs: seq<RelevantDocument>, base: nat, embed: seq<string> -> seq<V>): seq<seq<Point<V>>>
    decreases |docs|
  {
    if docs == [] then []
    else
      var n := if |docs| < BatchSize then |docs| else BatchSize;
      Flush(docs[..n], base, embed) + Batches(docs[n..], base + n, embed)
  }

  /** What `main` uploads: nothing without statutes or without a sample vector, otherwise every kept section. */
  function Seeding<V>(laws: seq<Law>, embed: seq<string> -> seq<V>): seq<seq<Point<V>>> {
    if laws == [] || embed([SampleText]) == [] then [] else Batches(Kept(laws), 0, embed)
  }

  // ------------------------------------------------------------------------
  // The loop of `main`

  /**
   * The three pending lists of the loop: index by index, the text, the id
   * and the payload of the sections kept since the last flush. `flushed`
   * holds the sections kept before it, a multiple of `BatchSize` of them,
   * and `pointId` counts every kept section.
   */
  predicate Pending(flushed: seq<RelevantDocument>, pointId: nat, texts: seq<string>, pointIds: seq<nat>, payloads: seq<RelevantDocument>) {
    pointId == |flushed| + |payloads| && |flushed| % BatchSize == 0
    && texts == Texts(payloads) && pointIds == IdsFrom(|flushed|, |payloads|)
  }

  /** `main`: the batches uploaded, in order. */
  method Seed<V>(laws: seq<Law>, embed: seq<string> -> seq<V>) returns (log: seq<seq<Point<V>>>)
    ensures log == Seeding(laws, embed)
    ensures laws == [] || embed([SampleText]) == [] ==> log == []
  {
    log := [];
    if |laws| == 0 {
      return;
    }
    var sample := embed([SampleText]);
    if |sample| == 0 {
      return;
    }
    var pointId: nat := 0;
    var texts: seq<string> := [];
    var pointIds: seq<nat> := [];
    var payloads: seq<RelevantDocument> := [];
    ghost var flushed: seq<RelevantDocument> := [];
    for i := 0 to |laws|
      invariant flushed + payloads == Kept(laws[..i])
      invariant Pending(flushed, pointId, texts, pointIds, payloads) && |payloads| < BatchSize
      invariant log == Batches(flushed, 0, embed)
    {
      log, pointId, texts, pointIds, payloads, flushed :=
        SeedLaw(laws[i], embed, log, pointId, texts, pointIds, payloads, flushed);
      KeptStep(laws, i);
    }
    assert laws[..|laws|] == laws;
    if |texts| > 0 {
      BatchesRest(flushed, payloads, embed, |flushed| / BatchSize);
      FlushOfPending(flushed, pointId, texts, pointIds, payloads, embed);
      var embeddings := embed(texts);
      if |embeddings| != |texts| {
        // the batch is dropped
        assert log + [] == log;
      } else {
        log := log + [Zip(pointIds, embeddings, payloads)];
      }
    } else {
      assert flushed + payloads == flushed;
      assert log + [] == log;
    }
  }

  /**
   * The inner loop of `main` over the sections of one statute: each section
   * with text joins the pending lists, and a full batch is embedded and
   * uploaded (or dropped when the vector count is wrong) and the lists are
   * emptied.
   */
  method SeedLaw<V>(law: Law, embed: seq<string> -> seq<V>, log0: seq<seq<Point<V>>>, pointId0: nat,
                    texts0: seq<string>, pointIds0: seq<nat>, payloads0: seq<RelevantDocument>,
                    ghost flushed0: seq<RelevantDocument>)
    returns (log: seq<seq<Point<V>>>, pointId: nat, texts: seq<string>, pointIds: seq<nat>,
             payloads: seq<RelevantDocument>, ghost flushed: seq<RelevantDocument>)
    requires Pending(flushed0, pointId0, texts0, pointIds0, payloads0) && |payloads0| < BatchSize
    requires log0 == Batches(flushed0, 0, embed)
    ensures flushed + payloads == flushed0 + payloads0 + KeptIn(law, law.paragrafy)
    ensures Pending(flushed, pointId, texts, pointIds, payloads) && |payloads| < BatchSize
    ensures log == Batches(flushed, 0, embed)
  {
    log, pointId, texts, pointIds, payloads, flushed := log0, pointId0, texts0, pointIds0, payloads0, flushed0;
    ghost var start := flushed0 + payloads0;
    for j := 0 to |law.paragrafy|
      invariant flushed + payloads == start + KeptIn(law, law.paragrafy[..j])
      invariant Pending(flushed, pointId, texts, pointIds, payloads) && |payloads| < BatchSize
      invariant log == Batches(flushed, 0, embed)
    {
      KeptInStep(law, law.paragrafy, j);
      ghost var before := flushed + payloads;
      log, pointId, texts, pointIds, payloads, flushed :=
        SeedSection(law, law.paragrafy[j], embed, log, pointId, texts, pointIds, payloads, flushed);
      AppendAssoc(start, KeptIn(law, law.paragrafy[..j]), if Blank(law.paragrafy[j]) then [] else [Payload(law, law.paragrafy[j])]);
    }
    assert law.paragrafy[..|law.paragrafy|] == law.paragrafy;
  }

  /**
   * One pass of the inner loop: a section with text joins the pending lists,
   * and once `BatchSize` are pending they are embedded and uploaded (or
   * dropped when the vector count is wrong) and the lists are emptied.
   */
  method SeedSection<V>(law: Law, para: Paragraf, embed: seq<string> -> seq<V>, log0: seq<seq<Point<V>>>, pointId0: nat,
                        texts0: seq<string>, pointIds0: seq<nat>, payloads0: seq<RelevantDocument>,
                        ghost flushed0: seq<RelevantDocument>)
    returns (log: seq<seq<Point<V>>>, pointId: nat, texts: seq<string>, pointIds: seq<nat>,
             payloads: seq<RelevantDocument>, ghost flushed: seq<RelevantDocument>)
    requires Pending(flushed0, pointId0, texts0, pointIds0, payloads0) && |payloads0| < BatchSize
    requires log0 == Batches(flushed0, 0, embed)
    ensures flushed + payloads == flushed0 + payloads0 + (if Blank(para) then [] else [Payload(law, para)])
    ensures Pending(flushed, pointId, texts, pointIds, payloads) && |payloads| < BatchSize
    ensures log == Batches(flushed, 0, embed)
  {
    log, pointId, texts, pointIds, payloads, flushed := log0, pointId0, texts0, pointIds0, payloads0, flushed0;
    if Strip(para.zneni) == [] {
      assert flushed + payloads + [] == flushed + payloads;
      return;
    }
    var d := Payload(law, para);
    KeepOne(flushed, pointId, texts, pointIds, payloads, d);
    texts := texts + [para.zneni];
    pointIds := pointIds + [pointId];
    payloads := payloads + [d];
    pointId := pointId + 1;
    AppendAssoc(flushed, payloads0, [d]);
    if |texts| >= BatchSize {
      BatchesRest(flushed, payloads, embed, |flushed| / BatchSize);
      FlushOfPending(flushed, pointId, texts, pointIds, payloads, embed);
      var embeddings := embed(texts);
      if |embeddings| != |texts| {
        // the batch is dropped
        assert log + [] == log;
      } else {
        log := log + [Zip(pointIds, embeddings, payloads)];
      }
      FlushedStep(|flushed|, |payloads|);
      flushed := flushed + payloads;
      texts := [];
      pointIds := [];
      payloads := [];
      PendingEmpty(flushed);
      assert flushed + payloads == flushed;
    }
  }

  lemma {:induction false} KeptInStep(law: Law, ps: seq<Paragraf>, j: nat)
    requires j < |ps|
    ensures KeptIn(law, ps[..j + 1]) == KeptIn(law, ps[..j]) + (if Blank(ps[j]) then [] else [Payload(law, ps[j])])
  {
    assert ps[..j + 1][..j] == ps[..j];
  }

  lemma {:induction false} KeptStep(laws: seq<Law>, i: nat)
    requires i < |laws|
    ensures Kept(laws[..i + 1]) == Kept(laws[..i]) + KeptIn(laws[i], laws[i].paragrafy)
  {
    assert laws[..i + 1][..i] == laws[..i];
  }

  /** Appending a kept section to the three pending lists keeps them aligned. */
  lemma {:induction false} KeepOne(flushed: seq<RelevantDocument>, pointId: nat, texts: seq<string>, pointIds: seq<nat>,
                                   payloads: seq<RelevantDocument>, d: RelevantDocument)
    requires Pending(flushed, pointId, texts, pointIds, payloads)
    ensures Pending(flushed, pointId + 1, texts + [d.paragraphZneni], pointIds + [pointId], payloads + [d])
  {
    assert Texts(payloads + [d]) == Texts(payloads) + [d.paragraphZneni];
    assert IdsFrom(|flushed|, |payloads| + 1) == IdsFrom(|flushed|, |payloads|) + [|flushed| + |payloads|];
  }

  /** Right after a flush nothing is pending. */
  lemma {:induction false} PendingEmpty(flushed: seq<RelevantDocument>)
    requires |flushed| % BatchSize == 0
    ensures Pending(flushed, |flushed|, [], [], [])
  {
    assert Texts([]) == [] && IdsFrom(|flushed|, 0) == [];
  }

  /** The pending lists are exactly what `Flush` embeds and numbers. */
  lemma {:induction false} FlushOfPending<V>(flushed: seq<RelevantDocument>, pointId: nat, texts: seq<string>, pointIds: seq<nat>,
                                              payloads: seq<RelevantDocument>, embed: seq<string> -> seq<V>)
    requires Pending(flushed, pointId, texts, pointIds, payloads)
    ensures Flush(payloads, |flushed|, embed)
            == if |embed(texts)| != |texts| then [] else [Zip(pointIds, embed(texts), payloads)]
  {
  }

  /** A full batch keeps the flushed count a multiple of `BatchSize`. */
  lemma FlushedStep(flushed: nat, pending: nat)
    requires flushed % BatchSize == 0 && pending == BatchSize
    ensures (flushed + pending) % BatchSize == 0
  {
  }

  // ------------------------------------------------------------------------
  // Batching

  /** Batching `m` times `BatchSize` items first cuts the two parts independently. */
  lemma {:induction false} BatchesAppend<V>(a: seq<RelevantDocument>, b: seq<RelevantDocument>, base: nat, embed: seq<string> -> seq<V>, m: nat)
    requires |a| == BatchSize * m
    ensures Batches(a + b, base, embed) == Batches(a, base, embed) + Batches(b, base + |a|, embed)
    decreases m
  {
    if a != [] {
      assert (a + b)[..BatchSize] == a[..BatchSize];
      assert (a + b)[BatchSize..] == a[BatchSize..] + b;
      BatchesAppend(a[BatchSize..], b, base + BatchSize, embed, m - 1);
      AppendAssoc(Flush(a[..BatchSize], base, embed), Batches(a[BatchSize..], base + BatchSize, embed), Batches(b, base + |a|, embed));
    } else {
      assert a + b == b;
    }
  }

  /** Up to `BatchSize` items make one flush. */
  lemma {:induction false} BatchesOne<V>(b: seq<RelevantDocument>, base: nat, embed: seq<string> -> seq<V>)
    requires 0 < |b| <= BatchSize
    ensures Batches(b, base, embed) == Flush(b, base, embed)
  {
    assert b[..|b|] == b && b[|b|..] == [];
  }

  /**
   * When 1 to `BatchSize` items follow a multiple of `BatchSize`, the
   * batches are those of the multiple and one flush of the rest.
   */
  lemma {:induction false} BatchesRest<V>(a: seq<RelevantDocument>, b: seq<RelevantDocument>, embed: seq<string> -> seq<V>, m: nat)
    requires |a| == BatchSize * m && 0 < |b| <= BatchSize
    ensures Batches(a + b, 0, embed) == Batches(a, 0, embed) + Flush(b, |a|, embed)
  {
    BatchesAppend(a, b, 0, embed, m);
    BatchesOne(b, |a|, embed);
  }

  // ------------------------------------------------------------------------
  // What the uploaded batches look like

  /** The texts a batch of points was embedded from: the section texts of their payloads. */
  function PointTexts<V>(batch: seq<Point<V>>): (texts: seq<string>)
    ensures |texts| == |batch|
    ensures forall k :: 0 <= k < |batch| ==> texts[k] == batch[k].payload.paragraphZneni
  {
    seq(|batch|, k requires 0 <= k < |batch| => batch[k].payload.paragraphZneni)
  }

  /** Every point carries an id in `base ..` and, as payload, the item its id numbers. */
  predicate Numbered<V>(log: seq<seq<Point<V>>>, docs: seq<RelevantDocument>, base: nat) {
    forall i, k | 0 <= i < |log| && 0 <= k < |log[i]| ::
      base <= log[i][k].id < base + |docs| && log[i][k].payload == docs[log[i][k].id - base]
  }

  /** Within a batch the ids are consecutive. */
  predicate Consecutive<V>(log: seq<seq<Point<V>>>) {
    forall i, k | 0 <= i < |log| && 0 <= k < |log[i]| :: log[i][k].id == log[i][0].id + k
  }

  /** Every id of an earlier batch is below every id of a later one: no id is used twice. */
  predicate Ascending<V>(log: seq<seq<Point<V>>>) {
    forall i, j, k, l | 0 <= i < j < |log| && 0 <= k < |log[i]| && 0 <= l < |log[j]| ::
      log[i][k].id < log[j][l].id
  }

  /** No batch is empty or larger than `BatchSize`, and only the last may be smaller. */
  predicate Sized<V>(log: seq<seq<Point<V>>>) {
    forall i | 0 <= i < |log| :: 0 < |log[i]| <= BatchSize && (i < |log| - 1 ==> |log[i]| == BatchSize)
  }

  /** The k-th point of a batch has the k-th vector the service returned for the batch's texts. */
  ghost predicate Embedded<V>(log: seq<seq<Point<V>>>, embed: seq<string> -> seq<V>) {
    forall i | 0 <= i < |log| ::
      |embed(PointTexts(log[i]))| == |log[i]|
      && forall k | 0 <= k < |log[i]| :: log[i][k].vector == embed(PointTexts(log[i]))[k]
  }

  /** The batch made of `docs` numbered from `base` with their vectors. */
  lemma {:induction false} BatchPoints<V>(base: nat, vectors: seq<V>, docs: seq<RelevantDocument>)
    requires |vectors| == |docs|
    ensures var batch := Zip(IdsFrom(base, |docs|), vectors, docs);
            Numbered([batch], docs, base) && Consecutive([batch])
  {
    var batch := Zip(IdsFrom(base, |docs|), vectors, docs);
    var log: seq<seq<Point<V>>> := [batch];
    forall i, k | 0 <= i < |log| && 0 <= k < |log[i]|
      ensures base <= log[i][k].id < base + |docs| && log[i][k].payload == docs[log[i][k].id - base]
      ensures log[i][k].id == log[i][0].id + k
    {
      assert log[i][k] == Point(base + k, vectors[k], docs[k]);
    }
  }

  /** One flush: at most one batch, of all the items, numbered from `base` without a gap. */
  lemma {:induction false} FlushNumbered<V>(docs: seq<RelevantDocument>, base: nat, embed: seq<string> -> seq<V>)
    ensures |Flush(docs, base, embed)| <= 1
    ensures forall k | 0 <= k < |Flush(docs, base, embed)| :: |Flush(docs, base, embed)[k]| == |docs|
    ensures Numbered(Flush(docs, base, embed), docs, base)
    ensures Consecutive(Flush(docs, base, embed))
  {
    var vectors := embed(Texts(docs));
    var log: seq<seq<Point<V>>> := Flush(docs, base, embed);
    if |vectors| == |docs| {
      var batch := Zip(IdsFrom(base, |docs|), vectors, docs);
      assert log == [batch];
      BatchPoints(base, vectors, docs);
      assert Numbered(log, docs, base) && Consecutive(log);
    } else {
      assert log == [];
    }
  }

  /** One flush: the vectors of its batch are those embedded from the batch's own texts. */
  lemma {:induction false} FlushEmbedded<V>(docs: seq<RelevantDocument>, base: nat, embed: seq<string> -> seq<V>)
    ensures Embedded(Flush(docs, base, embed), embed)
  {
    var vectors := embed(Texts(docs));
    if |vectors| == |docs| {
      var batch := Zip(IdsFrom(base, |docs|), vectors, docs);
      assert Flush(docs, base, embed) == [batch];
      assert PointTexts(batch) == Texts(docs);
      assert forall k | 0 <= k < |batch| :: batch[k].vector == vectors[k];
    }
  }

  /** Numbering carries over to two logs joined, the second numbered after the first. */
  lemma {:induction false} JoinNumbered<V>(a: seq<seq<Point<V>>>, b: seq<seq<Point<V>>>, docs: seq<RelevantDocument>, n: nat, base: nat)
    requires n <= |docs|
    requires Numbered(a, docs[..n], base) && Numbered(b, docs[n..], base + n)
    ensures Numbered(a + b, docs, base)
  {
    var log: seq<seq<Point<V>>> := a + b;
    forall i, k | 0 <= i < |log| && 0 <= k < |log[i]|
      ensures base <= log[i][k].id < base + |docs| && log[i][k].payload == docs[log[i][k].id - base]
    {
      if i < |a| {
        assert log[i] == a[i];
      } else {
        assert log[i] == b[i - |a|];
      }
    }
  }

  /** A single batch numbered below a rising log keeps the ids rising. */
  lemma {:induction false} JoinAscending<V>(a: seq<seq<Point<V>>>, b: seq<seq<Point<V>>>, docs: seq<RelevantDocument>, n: nat, base: nat)
    requires n <= |docs|
    requires Numbered(a, docs[..n], base) && Numbered(b, docs[n..], base + n)
    requires Ascending(b) && |a| <= 1
    ensures Ascending(a + b)
  {
    var log: seq<seq<Point<V>>> := a + b;
    forall i, j, k, l | 0 <= i < j < |log| && 0 <= k < |log[i]| && 0 <= l < |log[j]|
      ensures log[i][k].id < log[j][l].id
    {
      if i < |a| {
        assert log[i] == a[i] && log[j] == b[j - |a|];
      } else {
        assert log[i] == b[i - |a|] && log[j] == b[j - |a|];
      }
    }
  }

  /** Consecutive ids and the vectors' origin are properties of each batch alone. */
  lemma {:induction false} JoinEmbedded<V>(a: seq<seq<Point<V>>>, b: seq<seq<Point<V>>>, embed: seq<string> -> seq<V>)
    requires Consecutive(a) && Consecutive(b) && Embedded(a, embed) && Embedded(b, embed)
    ensures Consecutive(a + b) && Embedded(a + b, embed)
  {
    var log: seq<seq<Point<V>>> := a + b;
    forall i | 0 <= i < |log|
      ensures log[i] == if i < |a| then a[i] else b[i - |a|]
    {
    }
  }

  /**
   * The uploads of `Batches`: every point is numbered by its item, and ids
   * rise from batch to batch.
   */
  lemma {:induction false} BatchesNumbered<V>(docs: seq<RelevantDocument>, base: nat, embed: seq<string> -> seq<V>)
    ensures var log := Batches(docs, base, embed);
            Numbered(log, docs, base) && Ascending(log)
    decreases |docs|
  {
    if docs != [] {
      var n := if |docs| < BatchSize then |docs| else BatchSize;
      var a, b := Flush(docs[..n], base, embed), Batches(docs[n..], base + n, embed);
      FlushNumbered(docs[..n], base, embed);
      BatchesNumbered(docs[n..], base + n, embed);
      JoinNumbered(a, b, docs, n, base);
      JoinAscending(a, b, docs, n, base);
    }
  }

  /**
   * In every batch of `Batches` the ids run on without a gap, and each
   * point's vector is the one embedded from its own payload's text.
   */
  lemma {:induction false} BatchesEmbedded<V>(docs: seq<RelevantDocument>, base: nat, embed: seq<string> -> seq<V>)
    ensures var log := Batches(docs, base, embed);
            Consecutive(log) && Embedded(log, embed)
    decreases |docs|
  {
    if docs != [] {
      var n := if |docs| < BatchSize then |docs| else BatchSize;
      FlushEmbedded(docs[..n], base, embed);
      BatchesEmbedded(docs[n..], base + n, embed);
      JoinEmbedded(Flush(docs[..n], base, embed), Batches(docs[n..], base + n, embed), embed);
    }
  }

  /** Every batch holds 1 to `BatchSize` points, and all but the last exactly `BatchSize`. */
  lemma {:induction false} BatchesSized<V>(docs: seq<RelevantDocument>, base: nat, embed: seq<string> -> seq<V>)
    ensures Sized(Batches(docs, base, embed))
    decreases |docs|
  {
    if docs != [] {
      var n := if |docs| < BatchSize then |docs| else BatchSize;
      FlushNumbered(docs[..n], base, embed);
      BatchesSized(docs[n..], base + n, embed);
      var a, b := Flush(docs[..n], base, embed), Batches(docs[n..], base + n, embed);
      if n < BatchSize {
        assert docs[n..] == [];
      }
      var log: seq<seq<Point<V>>> := a + b;
      forall i | 0 <= i < |log|
        ensures 0 < |log[i]| <= BatchSize && (i < |log| - 1 ==> |log[i]| == BatchSize)
      {
        if i < |a| {
          assert log[i] == a[i];
        } else {
          assert log[i] == b[i - |a|];
        }
      }
    }
  }

  /** The points of a log, batch after batch. */
  function Flatten<T>(log: seq<seq<T>>): (points: seq<T>)
    ensures log == [] ==> points == []
  {
    if log == [] then [] else log[0] + Flatten(log[1..])
  }

  lemma {:induction false} FlattenAppend<T>(a: seq<seq<T>>, b: seq<seq<T>>)
    ensures Flatten(a + b) == Flatten(a) + Flatten(b)
    decreases |a|
  {
    if a == [] {
      assert a + b == b;
    } else {
      assert (a + b)[1..] == a[1..] + b;
      FlattenAppend(a[1..], b);
      AppendAssoc(a[0], Flatten(a[1..]), Flatten(b));
    }
  }

  /**
   * With a service that always returns one vector per text, every item is
   * uploaded: the points, batch after batch, are the items in order under
   * the ids `base`, `base + 1`, ... without a gap.
   */
  lemma {:induction false} BatchesComplete<V>(docs: seq<RelevantDocument>, base: nat, embed: seq<string> -> seq<V>)
    requires forall texts :: |embed(texts)| == |texts|
    ensures var points := Flatten(Batches(docs, base, embed));
            |points| == |docs| && forall k | 0 <= k < |docs| :: points[k].id == base + k && points[k].payload == docs[k]
    decreases |docs|
  {
    if docs != [] {
      var n := if |docs| < BatchSize then |docs| else BatchSize;
      var a, b := Flush(docs[..n], base, embed), Batches(docs[n..], base + n, embed);
      BatchesComplete(docs[n..], base + n, embed);
      FlattenAppend(a, b);
      assert |embed(Texts(docs[..n]))| == n;
      var head := Zip(IdsFrom(base, n), embed(Texts(docs[..n])), docs[..n]);
      assert a == [head];
      assert Flatten(a) == head + Flatten([]);
      var points := Flatten(a + b);
      forall k | 0 <= k < |docs|
        ensures points[k].id == base + k && points[k].payload == docs[k]
      {
        if k < n {
          assert points[k] == head[k];
        } else {
          assert points[k] == Flatten(b)[k - n];
        }
      }
    }
  }

  // ------------------------------------------------------------------------
  // Which sections are uploaded

  /** Keeping is done statute by statute: the kept sections of two lists of statutes are joined in order. */
  lemma {:induction false} KeptAppend(a: seq<Law>, b: seq<Law>)
    ensures Kept(a + b) == Kept(a) + Kept(b)
    decreases |b|
  {
    if b == [] {
      assert a + b == a;
    } else {
      var c := b[..|b| - 1];
      assert (a + b)[..|a + b| - 1] == a + c;
      KeptAppend(a, c);
      AppendAssoc(Kept(a), Kept(c), KeptIn(b[|b| - 1], b[|b| - 1].paragrafy));
    }
  }

  /** Every section kept from one statute has text and is one of its sections, with the statute's metadata. */
  lemma {:induction false} KeptInSound(law: Law, ps: seq<Paragraf>)
    ensures forall k | 0 <= k < |KeptIn(law, ps)| ::
              exists j :: 0 <= j < |ps| && !Blank(ps[j]) && KeptIn(law, ps)[k] == Payload(law, ps[j])
    decreases |ps|
  {
    if ps != [] {
      var init := ps[..|ps| - 1];
      KeptInSound(law, init);
      var kept := KeptIn(law, ps);
      forall k | 0 <= k < |kept|
        ensures exists j :: 0 <= j < |ps| && !Blank(ps[j]) && kept[k] == Payload(law, ps[j])
      {
        var last := ps[|ps| - 1];
        assert kept == KeptIn(law, init) + (if Blank(last) then [] else [Payload(law, last)]);
        if k < |KeptIn(law, init)| {
          var j :| 0 <= j < |init| && !Blank(init[j]) && KeptIn(law, init)[k] == Payload(law, init[j]);
          assert ps[j] == init[j] && kept[k] == KeptIn(law, init)[k];
          assert 0 <= j < |ps| && !Blank(ps[j]) && kept[k] == Payload(law, ps[j]);
        } else {
          assert !Blank(last) && kept[k] == Payload(law, last);
          assert 0 <= |ps| - 1 < |ps| && !Blank(ps[|ps| - 1]) && kept[k] == Payload(law, ps[|ps| - 1]);
        }
      }
      assert forall k | 0 <= k < |KeptIn(law, ps)| ::
              exists j :: 0 <= j < |ps| && !Blank(ps[j]) && KeptIn(law, ps)[k] == Payload(law, ps[j]);
    } else {
      assert KeptIn(law, ps) == [];
    }
  }

  /** Every section with text of one statute is kept. */
  lemma {:induction false} KeptInComplete(law: Law, ps: seq<Paragraf>)
    ensures forall j | 0 <= j < |ps| && !Blank(ps[j]) :: Payload(law, ps[j]) in KeptIn(law, ps)
    decreases |ps|
  {
    if ps != [] {
      var init := ps[..|ps| - 1];
      KeptInComplete(law, init);
      forall j | 0 <= j < |ps| && !Blank(ps[j])
        ensures Payload(law, ps[j]) in KeptIn(law, ps)
      {
        if j < |init| {
          assert ps[j] == init[j];
        }
      }
    }
  }

  /**
   * Every kept section has text that is not all whitespace, and is a section
   * of one of the statutes, carrying that statute's metadata.
   */
  lemma {:induction false} KeptSound(laws: seq<Law>)
    ensures forall k | 0 <= k < |Kept(laws)| :: !AllSpace(Kept(laws)[k].paragraphZneni)
    ensures forall k | 0 <= k < |Kept(laws)| ::
              exists i, j :: 0 <= i < |laws| && 0 <= j < |laws[i].paragrafy|
                             && Kept(laws)[k] == Payload(laws[i], laws[i].paragrafy[j])
    decreases |laws|
  {
    if laws != [] {
      var init := laws[..|laws| - 1];
      var last := laws[|laws| - 1];
      KeptSound(init);
      KeptInSound(last, last.paragrafy);
      var kept := Kept(laws);
      forall k | 0 <= k < |kept|
        ensures !AllSpace(kept[k].paragraphZneni)
        ensures exists i, j :: 0 <= i < |laws| && 0 <= j < |laws[i].paragrafy| && kept[k] == Payload(laws[i], laws[i].paragrafy[j])
      {
        assert kept == Kept(init) + KeptIn(last, last.paragrafy);
        if k < |Kept(init)| {
          assert kept[k] == Kept(init)[k];
          var i, j :| 0 <= i < |init| && 0 <= j < |init[i].paragrafy| && Kept(init)[k] == Payload(init[i], init[i].paragrafy[j]);
          assert laws[i] == init[i];
          assert 0 <= i < |laws| && 0 <= j < |laws[i].paragrafy| && kept[k] == Payload(laws[i], laws[i].paragrafy[j]);
        } else {
          var j :| 0 <= j < |last.paragrafy| && !Blank(last.paragrafy[j])
                   && KeptIn(last, last.paragrafy)[k - |Kept(init)|] == Payload(last, last.paragrafy[j]);
          assert kept[k] == Payload(last, last.paragrafy[j]);
          StripEmptyIff(last.paragrafy[j].zneni);
          assert 0 <= |laws| - 1 < |laws| && 0 <= j < |laws[|laws| - 1].paragrafy|
                 && kept[k] == Payload(laws[|laws| - 1], laws[|laws| - 1].paragrafy[j]);
        }
      }
      assert forall k | 0 <= k < |Kept(laws)| ::
               exists i, j :: 0 <= i < |laws| && 0 <= j < |laws[i].paragrafy|
                              && Kept(laws)[k] == Payload(laws[i], laws[i].paragrafy[j]);
    } else {
      assert Kept(laws) == [];
    }
  }

  /** Every section with text, of every statute, is kept. */
  lemma {:induction false} KeptComplete(laws: seq<Law>)
    ensures forall i, j | 0 <= i < |laws| && 0 <= j < |laws[i].paragrafy| && !AllSpace(laws[i].paragrafy[j].zneni) ::
              Payload(laws[i], laws[i].paragrafy[j]) in Kept(laws)
    decreases |laws|
  {
    if laws != [] {
      var init := laws[..|laws| - 1];
      var last := laws[|laws| - 1];
      KeptComplete(init);
      KeptInComplete(last, last.paragrafy);
      forall i, j | 0 <= i < |laws| && 0 <= j < |laws[i].paragrafy| && !AllSpace(laws[i].paragrafy[j].zneni)
        ensures Payload(laws[i], laws[i].paragrafy[j]) in Kept(laws)
      {
        StripEmptyIff(laws[i].paragrafy[j].zneni);
        if i < |init| {
          assert laws[i] == init[i];
        }
      }
    }
  }

  /**
   * What `main` uploads: the kept sections, numbered from 0 in statute then
   * section order, in batches of `BatchSize` (the last may be shorter), ids
   * rising and never reused, each vector embedded from its own payload's text.
   */
  lemma {:induction false} SeedingShape<V>(laws: seq<Law>, embed: seq<string> -> seq<V>)
    ensures var log := Seeding(laws, embed);
            Numbered(log, Kept(laws), 0) && Ascending(log) && Consecutive(log) && Embedded(log, embed) && Sized(log)
  {
    BatchesNumbered(Kept(laws), 0, embed);
    BatchesEmbedded(Kept(laws), 0, embed);
    BatchesSized(Kept(laws), 0, embed);
  }

  /**
   * With a service that always returns one vector per text, the points
   * uploaded, batch after batch, are exactly the kept sections in order,
   * under the ids 0, 1, 2, ... without a gap.
   */
  lemma {:induction false} SeedingComplete<V>(laws: seq<Law>, embed: seq<string> -> seq<V>)
    requires forall texts :: |embed(texts)| == |texts|
    ensures var points := Flatten(Seeding(laws, embed));
            |points| == |Kept(laws)|
            && forall k | 0 <= k < |points| :: points[k].id == k && points[k].payload == Kept(laws)[k]
  {
    assert |embed([SampleText])| == 1;
    BatchesComplete(Kept(laws), 0, embed);
  }
}
