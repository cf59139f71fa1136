/** `upsert_chunks`: every chunk is keyed by the hash of its text; a chunk
    whose key the vector index already holds is skipped, the others are
    embedded, buffered and written in batches of at most `batch_size`.

    The vector index is an in-memory map from record id to record; the
    content hash and the embedding provider are deterministic functions
    passed in as parameters, about which nothing else is assumed. */
module Indexer {
  import opened Basics
  import opened Chunker

  type Vector = seq<real>

  datatype Metadata = Metadata(text: string, docId: string)

  /** One vector-index record: `{"id": ..., "values": ..., "metadata": ...}`. */
  datatype Record = Record(id: string, values: Vector, metadata: Metadata)

  type Index = map<string, Record>

  /** The environment variables `get_pinecone_index` reads. */
  datatype Settings = Settings(apiKey: Option<string>, indexName: Option<string>)

  datatype ConfigError = ApiKeyNotSet | IndexNameNotSet

  /** The content hash and the embedding call, as opaque functions. */
  datatype Providers = Providers(hash: string -> string, embed: string -> Vector)

  /** An element of the `chunks` argument: a chunk dict or a bare string. */
  datatype Item = DictItem(chunk: Chunk) | TextItem(text: string)

  /** `chunk["text"] if isinstance(chunk, dict) else chunk`. */
  function TextOf(item: Item): string {
    match item
    case DictItem(c) => c.text
    case TextItem(t) => t
  }

  function Texts(items: seq<Item>): (ts: seq<string>)
    ensures |ts| == |items|
    ensures forall i :: 0 <= i < |items| ==> ts[i] == TextOf(items[i])
  {
    seq(|items|, i requires 0 <= i < |items| => TextOf(items[i]))
  }

  /** Python truthiness of an optional string: present and non-empty. */
  predicate IsSet(v: Option<string>) {
    v.Some? && v.value != ""
  }

  /** `doc_id or "unknown"`: an absent or empty id is replaced. */
  function DocLabel(docId: Option<string>): (name: string)
    ensures name != ""
    ensures IsSet(docId) ==> name == docId.value
    ensures !IsSet(docId) ==> name == "unknown"
  {
    if IsSet(docId) then docId.value else "unknown"
  }

  function MakeRecord(p: Providers, text: string, tag: string): Record {
    Record(p.hash(text), p.embed(text), Metadata(text, tag))
  }

  function Records(p: Providers, tag: string, ts: seq<string>): (rs: seq<Record>)
    ensures |rs| == |ts|
    ensures forall i :: 0 <= i < |ts| ==> rs[i] == MakeRecord(p, ts[i], tag)
  {
    seq(|ts|, i requires 0 <= i < |ts| => MakeRecord(p, ts[i], tag))
  }

  /** The ids of the records of a batch. */
  function Ids(batch: seq<Record>): set<string>
    decreases |batch|
  {
    if batch == [] then {} else Ids(batch[..|batch| - 1]) + {batch[|batch| - 1].id}
  }

  lemma IdsAppend(batch: seq<Record>, r: Record)
    ensures Ids(batch + [r]) == Ids(batch) + {r.id}
  {
    assert (batch + [r])[..|batch|] == batch;
  }

  /** The keys of the texts of a sequence. */
  function Hashes(p: Providers, ts: seq<string>): (h: set<string>)
    ensures forall t :: t in ts ==> p.hash(t) in h
    decreases |ts|
  {
    if ts == [] then {} else {p.hash(ts[0])} + Hashes(p, ts[1..])
  }

  /** Largest number of records one upsert call carries: `len(batch) >=
      batch_size` flushes after every record when `batch_size < 1`. */
  function Cap(batchSize: int): nat {
    if batchSize >= 1 then batchSize else 1
  }

  /** One `index.upsert(vectors=batch)`: records are written in order, so a
      later record with the same id replaces an earlier one. */
  function Apply(index: Index, batch: seq<Record>): (r: Index)
    ensures r.Keys == index.Keys + Ids(batch)
    ensures forall k :: k in index && k !in Ids(batch) ==> r[k] == index[k]
    ensures forall k :: k in Ids(batch) ==> r[k] in batch && r[k].id == k
    decreases |batch|
  {
    if batch == [] then index
    else
      var last := batch[|batch| - 1];
      var m := Apply(index, batch[..|batch| - 1]);
      assert forall x :: x in batch[..|batch| - 1] ==> x in batch;
      m[last.id := last]
  }

  // ---------------------------------------------------------------------
  // The loop
  // ---------------------------------------------------------------------

  /** The loop state: the index as flushed so far, the pending batch, the
      two counters, the texts sent to the embedding provider and the upsert
      calls made, in order. */
  datatype Progress = Progress(index: Index, batch: seq<Record>, indexed: nat, skipped: nat,
                               embedded: seq<string>, calls: seq<seq<Record>>)

  /** What one call leaves behind: the final index, `(indexed, skipped)`,
      the embedded texts and the upsert calls. */
  datatype Outcome = Outcome(index: Index, indexed: nat, skipped: nat,
                             embedded: seq<string>, calls: seq<seq<Record>>)

  /** Keys that are in the index or on their way to it. */
  function Pending(s: Progress): set<string> {
    s.index.Keys + Ids(s.batch)
  }

  /** One iteration of the `for chunk in chunks` loop. With `seePending`
      false this is the code as written: `fetch` only sees flushed records.
      With `seePending` true a key waiting in the batch also counts as
      present. */
  function Step(p: Providers, batchSize: int, tag: string, seePending: bool,
                s: Progress, text: string): Progress
  {
    var id := p.hash(text);
    if id in s.index || (seePending && id in Ids(s.batch)) then
      s.(skipped := s.skipped + 1)
    else
      var batch := s.batch + [MakeRecord(p, text, tag)];
      if |batch| >= batchSize then
        Progress(Apply(s.index, batch), [], s.indexed + 1, s.skipped, s.embedded + [text], s.calls + [batch])
      else
        Progress(s.index, batch, s.indexed + 1, s.skipped, s.embedded + [text], s.calls)
  }

  function Loop(p: Providers, batchSize: int, tag: string, seePending: bool,
                s: Progress, ts: seq<string>): Progress
    decreases |ts|
  {
    if ts == [] then s else Loop(p, batchSize, tag, seePending, Step(p, batchSize, tag, seePending, s, ts[0]), ts[1..])
  }

  /** The final `if batch: index.upsert(vectors=batch)`. */
  function Flush(s: Progress): Outcome {
    if s.batch != [] then
      Outcome(Apply(s.index, s.batch), s.indexed, s.skipped, s.embedded, s.calls + [s.batch])
    else
      Outcome(s.index, s.indexed, s.skipped, s.embedded, s.calls)
  }

  /** Records present before the call keep their values. */
  ghost predicate KeepsOld(index0: Index, s: Progress) {
    forall k :: k in index0 ==> k in s.index && s.index[k] == index0[k]
  }

  /** The pending batch only holds keys `fetch` reported absent. */
  ghost predicate BatchFresh(s: Progress) {
    forall r :: r in s.batch ==> r.id !in s.index
  }

  /** Every call so far carried exactly `Cap(batch_size)` records, and the
      pending batch is shorter than that. */
  ghost predicate Sizes(batchSize: int, s: Progress) {
    && |s.batch| < Cap(batchSize)
    && (forall c :: c in s.calls ==> |c| == Cap(batchSize))
  }

  /** The calls made, followed by the pending batch, carry one record per
      embedded text, in order. */
  ghost predicate Log(p: Providers, tag: string, s: Progress) {
    && Concat(s.calls) + s.batch == Records(p, tag, s.embedded)
    && |s.embedded| == s.indexed
  }

  /** Every pending or newly written record was built from an embedded text. */
  ghost predicate Built(p: Providers, tag: string, index0: Index, s: Progress) {
    && (forall r :: r in s.batch ==> Made(p, tag, s.embedded, r))
    && (forall k :: k in s.index && k !in index0 ==> Made(p, tag, s.embedded, s.index[k]))
  }

  /** `r` is the record the loop builds for one of the texts `e`. */
  ghost predicate Made(p: Providers, tag: string, e: seq<string>, r: Record) {
    r == MakeRecord(p, r.metadata.text, tag) && r.metadata.text in e
  }

  /** No embedded text had its key in the starting index. */
  ghost predicate EmbeddedNew(p: Providers, index0: Index, s: Progress) {
    forall t :: t in s.embedded ==> p.hash(t) !in index0
  }

  /** What holds after every iteration, relative to the index `index0` the
      call started from. */
  ghost predicate Inv(p: Providers, batchSize: int, tag: string, index0: Index, s: Progress) {
    && KeepsOld(index0, s)
    && BatchFresh(s)
    && Sizes(batchSize, s)
    && Log(p, tag, s)
    && Built(p, tag, index0, s)
    && EmbeddedNew(p, index0, s)
  }

  lemma FlushKeepsOld(index0: Index, s: Progress, r: Record)
    requires KeepsOld(index0, s) && BatchFresh(s)
    requires r.id !in s.index
    ensures KeepsOld(index0, s.(index := Apply(s.index, s.batch + [r])))
  {
    var batch := s.batch + [r];
    IdsAppend(s.batch, r);
    forall k | k in index0
      ensures k !in Ids(batch)
    {
      if k in Ids(s.batch) {
        var x := IdsWitness(s.batch, k);
      }
    }
  }

  /** Every id of a batch belongs to one of its records. */
  lemma {:induction false} IdsWitness(batch: seq<Record>, k: string) returns (x: Record)
    requires k in Ids(batch)
    ensures x in batch && x.id == k
    decreases |batch|
  {
    var last := batch[|batch| - 1];
    if k == last.id {
      x := last;
    } else {
      x := IdsWitness(batch[..|batch| - 1], k);
    }
  }

  lemma FlushLog(p: Providers, tag: string, s: Progress, text: string)
    requires Log(p, tag, s)
    ensures var batch := s.batch + [MakeRecord(p, text, tag)];
            Log(p, tag, Progress(Apply(s.index, batch), [], s.indexed + 1, s.skipped, s.embedded + [text], s.calls + [batch]))
  {
    var r := MakeRecord(p, text, tag);
    var batch := s.batch + [r];
    assert Records(p, tag, s.embedded + [text]) == Records(p, tag, s.embedded) + [r];
    ConcatAppend(s.calls, batch);
  }

  lemma FlushBuilt(p: Providers, tag: string, index0: Index, s: Progress, text: string)
    requires Built(p, tag, index0, s)
    ensures var batch := s.batch + [MakeRecord(p, text, tag)];
            Built(p, tag, index0, Progress(Apply(s.index, batch), [], s.indexed + 1, s.skipped, s.embedded + [text], s.calls + [batch]))
  {
    var r := MakeRecord(p, text, tag);
    var batch := s.batch + [r];
    var e := s.embedded + [text];
    var m := Apply(s.index, batch);
    forall k | k in m && k !in index0
      ensures Made(p, tag, e, m[k])
    {
      FlushBuiltKey(p, tag, index0, s, text, k);
    }
  }

  lemma FlushBuiltKey(p: Providers, tag: string, index0: Index, s: Progress, text: string, k: string)
    requires Built(p, tag, index0, s)
    requires k in Apply(s.index, s.batch + [MakeRecord(p, text, tag)]) && k !in index0
    ensures Made(p, tag, s.embedded + [text], Apply(s.index, s.batch + [MakeRecord(p, text, tag)])[k])
  {
    var r := MakeRecord(p, text, tag);
    var batch := s.batch + [r];
    var x := Apply(s.index, batch)[k];
    if k in Ids(batch) {
      assert x in batch;
      if x != r {
        assert x in s.batch;
      }
    } else {
      assert x == s.index[k];
    }
  }

  /** One iteration keeps old records and keeps the batch free of stored keys. */
  lemma StepKeepsOld(p: Providers, batchSize: int, tag: string, seePending: bool,
                     index0: Index, s: Progress, text: string)
    requires KeepsOld(index0, s) && BatchFresh(s)
    ensures var t := Step(p, batchSize, tag, seePending, s, text);
            KeepsOld(index0, t) && BatchFresh(t)
  {
    var id := p.hash(text);
    if !(id in s.index || (seePending && id in Ids(s.batch))) && |s.batch| + 1 >= batchSize {
      FlushKeepsOld(index0, s, MakeRecord(p, text, tag));
    }
  }

  lemma StepSizes(p: Providers, batchSize: int, tag: string, seePending: bool, s: Progress, text: string)
    requires Sizes(batchSize, s)
    ensures Sizes(batchSize, Step(p, batchSize, tag, seePending, s, text))
  {
  }

  lemma StepLog(p: Providers, batchSize: int, tag: string, seePending: bool, s: Progress, text: string)
    requires Log(p, tag, s)
    ensures Log(p, tag, Step(p, batchSize, tag, seePending, s, text))
  {
    var id := p.hash(text);
    if !(id in s.index || (seePending && id in Ids(s.batch))) {
      if |s.batch| + 1 >= batchSize {
        FlushLog(p, tag, s, text);
      } else {
        assert Records(p, tag, s.embedded + [text]) == Records(p, tag, s.embedded) + [MakeRecord(p, text, tag)];
      }
    }
  }

  lemma StepBuilt(p: Providers, batchSize: int, tag: string, seePending: bool,
                  index0: Index, s: Progress, text: string)
    requires Built(p, tag, index0, s)
    ensures Built(p, tag, index0, Step(p, batchSize, tag, seePending, s, text))
  {
    var id := p.hash(text);
    if !(id in s.index || (seePending && id in Ids(s.batch))) && |s.batch| + 1 >= batchSize {
      FlushBuilt(p, tag, index0, s, text);
    }
  }

  lemma StepEmbeddedNew(p: Providers, batchSize: int, tag: string, seePending: bool,
                        index0: Index, s: Progress, text: string)
    requires EmbeddedNew(p, index0, s) && KeepsOld(index0, s)
    ensures EmbeddedNew(p, index0, Step(p, batchSize, tag, seePending, s, text))
  {
  }

  /** One iteration of the loop keeps the invariant. */
  lemma StepKeepsInv(p: Providers, batchSize: int, tag: string, seePending: bool,
                     index0: Index, s: Progress, text: string)
    requires Inv(p, batchSize, tag, index0, s)
    ensures Inv(p, batchSize, tag, index0, Step(p, batchSize, tag, seePending, s, text))
  {
    StepKeepsOld(p, batchSize, tag, seePending, index0, s, text);
    StepSizes(p, batchSize, tag, seePending, s, text);
    StepLog(p, batchSize, tag, seePending, s, text);
    StepBuilt(p, batchSize, tag, seePending, index0, s, text);
    StepEmbeddedNew(p, batchSize, tag, seePending, index0, s, text);
  }

  lemma StepPending(p: Providers, batchSize: int, tag: string, seePending: bool, s: Progress, text: string)
    ensures Pending(Step(p, batchSize, tag, seePending, s, text)) == Pending(s) + {p.hash(text)}
    ensures Step(p, batchSize, tag, seePending, s, text).indexed + Step(p, batchSize, tag, seePending, s, text).skipped
            == s.indexed + s.skipped + 1
  {
    var id := p.hash(text);
    if !(id in s.index || (seePending && id in Ids(s.batch))) {
      IdsAppend(s.batch, MakeRecord(p, text, tag));
    }
  }

  lemma {:induction false} LoopKeepsInv(p: Providers, batchSize: int, tag: string, seePending: bool,
                                        index0: Index, s: Progress, ts: seq<string>)
    requires Inv(p, batchSize, tag, index0, s)
    ensures Inv(p, batchSize, tag, index0, Loop(p, batchSize, tag, seePending, s, ts))
    ensures Pending(Loop(p, batchSize, tag, seePending, s, ts)) == Pending(s) + Hashes(p, ts)
    ensures Loop(p, batchSize, tag, seePending, s, ts).indexed + Loop(p, batchSize, tag, seePending, s, ts).skipped
            == s.indexed + s.skipped + |ts|
    decreases |ts|
  {
    if ts != [] {
      var s' := Step(p, batchSize, tag, seePending, s, ts[0]);
      StepKeepsInv(p, batchSize, tag, seePending, index0, s, ts[0]);
      StepPending(p, batchSize, tag, seePending, s, ts[0]);
      LoopKeepsInv(p, batchSize, tag, seePending, index0, s', ts[1..]);
    }
  }

  function Init(index: Index): Progress {
    Progress(index, [], 0, 0, [], [])
  }

  /** The final flush keeps the sizes of the calls within `Cap(batch_size)`
      and the call log in step with the embedded texts. */
  lemma FlushCalls(p: Providers, batchSize: int, tag: string, s: Progress)
    requires Sizes(batchSize, s) && Log(p, tag, s)
    ensures var o := Flush(s);
            && (forall j :: 0 <= j < |o.calls| ==> 1 <= |o.calls[j]| <= Cap(batchSize))
            && (forall j :: 0 <= j < |o.calls| - 1 ==> |o.calls[j]| == Cap(batchSize))
            && Concat(o.calls) == Records(p, tag, o.embedded)
            && |o.embedded| == o.indexed
  {
    ConcatAppend(s.calls, s.batch);
    assert forall j :: 0 <= j < |s.calls| ==> s.calls[j] in s.calls;
  }

  /** The final flush writes exactly the pending keys and only new records. */
  lemma FlushIndex(p: Providers, batchSize: int, tag: string, index0: Index, s: Progress)
    requires KeepsOld(index0, s) && BatchFresh(s) && Built(p, tag, index0, s)
    ensures var o := Flush(s);
            && o.index.Keys == Pending(s)
            && (forall k :: k in index0 ==> o.index[k] == index0[k])
            && (forall k :: k in o.index && k !in index0 ==>
                  o.index[k] == MakeRecord(p, o.index[k].metadata.text, tag) && o.index[k].metadata.text in o.embedded)
  {
    var o := Flush(s);
    forall k | k in index0
      ensures k !in Ids(s.batch)
    {
      if k in Ids(s.batch) {
        var x := IdsWitness(s.batch, k);
      }
    }
    forall k | k in o.index && k !in index0
      ensures o.index[k] == MakeRecord(p, o.index[k].metadata.text, tag) && o.index[k].metadata.text in o.embedded
    {
      if k in Ids(s.batch) {
        assert o.index[k] in s.batch;
      }
    }
  }

  /** The loop and the final flush over the texts `ts`, starting from the
      index `index0`. */
  function Run(p: Providers, batchSize: int, tag: string, seePending: bool,
               index0: Index, ts: seq<string>): Outcome
  {
    Flush(Loop(p, batchSize, tag, seePending, Init(index0), ts))
  }

  lemma RunKeepsInv(p: Providers, batchSize: int, tag: string, seePending: bool, index0: Index, ts: seq<string>)
    ensures var s := Loop(p, batchSize, tag, seePending, Init(index0), ts);
            && Inv(p, batchSize, tag, index0, s)
            && Pending(s) == index0.Keys + Hashes(p, ts)
            && s.indexed + s.skipped == |ts|
  {
    assert Concat<Record>([]) == [];
    assert Ids([]) == {};
    LoopKeepsInv(p, batchSize, tag, seePending, index0, Init(index0), ts);
  }

  /** Every chunk is counted exactly once, as indexed or as skipped, and
      one text is embedded per chunk counted as indexed. */
  lemma RunCounts(p: Providers, batchSize: int, tag: string, seePending: bool, index0: Index, ts: seq<string>)
    ensures var o := Run(p, batchSize, tag, seePending, index0, ts);
            && o.indexed + o.skipped == |ts|
            && |o.embedded| == o.indexed
  {
    RunKeepsInv(p, batchSize, tag, seePending, index0, ts);
  }

  /** Every upsert call carries 1 to `Cap(batch_size)` records, all but the
      last exactly `Cap(batch_size)`, and the calls, concatenated, carry one
      record per embedded text, in order. */
  lemma RunCalls(p: Providers, batchSize: int, tag: string, seePending: bool, index0: Index, ts: seq<string>)
    ensures var o := Run(p, batchSize, tag, seePending, index0, ts);
            && (forall j :: 0 <= j < |o.calls| ==> 1 <= |o.calls[j]| <= Cap(batchSize))
            && (forall j :: 0 <= j < |o.calls| - 1 ==> |o.calls[j]| == Cap(batchSize))
            && Concat(o.calls) == Records(p, tag, o.embedded)
  {
    RunKeepsInv(p, batchSize, tag, seePending, index0, ts);
    FlushCalls(p, batchSize, tag, Loop(p, batchSize, tag, seePending, Init(index0), ts));
  }

  /** Afterwards every chunk's hash is a key and no other key was added;
      records present before the call are untouched, nothing whose key was
      present is embedded, and every new record is built from an embedded
      text with the document label. */
  lemma RunIndex(p: Providers, batchSize: int, tag: string, seePending: bool, index0: Index, ts: seq<string>)
    ensures var o := Run(p, batchSize, tag, seePending, index0, ts);
            && o.index.Keys == index0.Keys + Hashes(p, ts)
            && (forall k :: k in index0 ==> o.index[k] == index0[k])
            && (forall t :: t in o.embedded ==> p.hash(t) !in index0)
            && (forall k :: k in o.index && k !in index0 ==>
                  o.index[k] == MakeRecord(p, o.index[k].metadata.text, tag) && o.index[k].metadata.text in o.embedded)
  {
    RunKeepsInv(p, batchSize, tag, seePending, index0, ts);
    FlushIndex(p, batchSize, tag, index0, Loop(p, batchSize, tag, seePending, Init(index0), ts));
  }

  /** Afterwards the key of every text is in the index. */
  lemma RunCovers(p: Providers, batchSize: int, tag: string, seePending: bool, index0: Index, ts: seq<string>)
    ensures forall t :: t in ts ==> p.hash(t) in Run(p, batchSize, tag, seePending, index0, ts).index
  {
    RunIndex(p, batchSize, tag, seePending, index0, ts);
  }

  /** Every record of every upsert call carries the document label. */
  lemma RunLabels(p: Providers, batchSize: int, tag: string, seePending: bool, index0: Index, ts: seq<string>)
    ensures var o := Run(p, batchSize, tag, seePending, index0, ts);
            forall c, rec :: c in o.calls && rec in c ==> rec.metadata.docId == tag
  {
    var o := Run(p, batchSize, tag, seePending, index0, ts);
    RunCalls(p, batchSize, tag, seePending, index0, ts);
    forall c, rec | c in o.calls && rec in c
      ensures rec.metadata.docId == tag
    {
      ConcatMember(o.calls, c, rec);
    }
  }

  /** `upsert_chunks(chunks, batch_size, doc_id)` against the index `index`:
      the configuration check of `get_pinecone_index` runs first, then the
      loop as written. */
  function UpsertChunks(settings: Settings, p: Providers, index: Index, chunks: seq<Item>,
                        batchSize: int, docId: Option<string>): (r: Result<Outcome, ConfigError>)
    ensures !IsSet(settings.apiKey) ==> r == Failure(ApiKeyNotSet)
    ensures IsSet(settings.apiKey) && !IsSet(settings.indexName) ==> r == Failure(IndexNameNotSet)
    ensures r.Success? <==> IsSet(settings.apiKey) && IsSet(settings.indexName)
    ensures r.Success? ==> r.value.indexed + r.value.skipped == |chunks|
    ensures r.Success? ==> forall i :: 0 <= i < |chunks| ==> p.hash(TextOf(chunks[i])) in r.value.index
    ensures r.Success? ==> forall c :: c in r.value.calls ==>
              forall rec :: rec in c ==> rec.metadata.docId == DocLabel(docId)
  {
    if !IsSet(settings.apiKey) then Failure(ApiKeyNotSet)
    else if !IsSet(settings.indexName) then Failure(IndexNameNotSet)
    else
      var ts := Texts(chunks);
      var o := Run(p, batchSize, DocLabel(docId), false, index, ts);
      RunCounts(p, batchSize, DocLabel(docId), false, index, ts);
      RunCovers(p, batchSize, DocLabel(docId), false, index, ts);
      RunLabels(p, batchSize, DocLabel(docId), false, index, ts);
      assert forall i :: 0 <= i < |chunks| ==> ts[i] in ts;
      Success(o)
  }

  lemma {:induction false} ConcatMember<T>(ss: seq<seq<T>>, s: seq<T>, x: T)
    requires s in ss && x in s
    ensures x in Concat(ss)
    decreases |ss|
  {
    var last := ss[|ss| - 1];
    if s != last || s in ss[..|ss| - 1] {
      if s != last {
        var j :| 0 <= j < |ss| && ss[j] == s;
        assert s in ss[..|ss| - 1] by { assert ss[..|ss| - 1][j] == s; }
      }
      ConcatMember(ss[..|ss| - 1], s, x);
    }
  }

  // ---------------------------------------------------------------------
  // Properties across calls
  // ---------------------------------------------------------------------

  lemma {:induction false} LoopAllPresent(p: Providers, batchSize: int, tag: string, seePending: bool,
                                          s: Progress, ts: seq<string>)
    requires forall t :: t in ts ==> p.hash(t) in s.index
    ensures Loop(p, batchSize, tag, seePending, s, ts) == s.(skipped := s.skipped + |ts|)
    decreases |ts|
  {
    if ts != [] {
      assert ts[0] in ts;
      assert forall t :: t in ts[1..] ==> t in ts;
      LoopAllPresent(p, batchSize, tag, seePending, s.(skipped := s.skipped + 1), ts[1..]);
    }
  }

  /** Idempotence: calling again with the same chunks on the index the first
      call left behind skips every chunk, embeds nothing, makes no upsert
      call and leaves the index as it is. */
  lemma UpsertIdempotent(settings: Settings, p: Providers, index: Index, chunks: seq<Item>,
                         batchSize: int, docId: Option<string>)
    requires UpsertChunks(settings, p, index, chunks, batchSize, docId).Success?
    ensures var o := UpsertChunks(settings, p, index, chunks, batchSize, docId).value;
            UpsertChunks(settings, p, o.index, chunks, batchSize, docId) ==
              Success(Outcome(o.index, 0, |chunks|, [], []))
  {
    var o := UpsertChunks(settings, p, index, chunks, batchSize, docId).value;
    var ts := Texts(chunks);
    assert forall t :: t in ts ==> p.hash(t) in o.index by {
      forall t | t in ts ensures p.hash(t) in o.index {
        var i :| 0 <= i < |ts| && ts[i] == t;
      }
    }
    LoopAllPresent(p, batchSize, DocLabel(docId), false, Init(o.index), ts);
  }

  /** As written, a text repeated before its first copy is flushed is not
      seen by `fetch`: with any `batch_size` of 2 or more, two equal chunks
      are both counted as indexed and both upserted in one call, although
      only one record results. */
  lemma DuplicateCountedTwice(p: Providers, batchSize: int, tag: string, index0: Index, t: string)
    requires batchSize >= 2
    requires p.hash(t) !in index0
    ensures var o := Run(p, batchSize, tag, false, index0, [t, t]);
            && o.indexed == 2 && o.skipped == 0
            && o.calls == [[MakeRecord(p, t, tag), MakeRecord(p, t, tag)]]
            && o.index.Keys - index0.Keys == {p.hash(t)}
  {
    var r := MakeRecord(p, t, tag);
    DuplicateRun(p, batchSize, tag, index0, t);
    IdsPair(r);
  }

  /** The outcome of the loop as written on two equal texts with a fresh key. */
  lemma DuplicateRun(p: Providers, batchSize: int, tag: string, index0: Index, t: string)
    requires batchSize >= 2
    requires p.hash(t) !in index0
    ensures var r := MakeRecord(p, t, tag);
            Run(p, batchSize, tag, false, index0, [t, t]) == Outcome(Apply(index0, [r, r]), 2, 0, [t, t], [[r, r]])
  {
    LoopPair(p, batchSize, tag, false, Init(index0), t);
    FirstCopy(p, batchSize, tag, index0, t);
    if batchSize == 2 {
      SecondCopyFlushes(p, tag, index0, t);
    } else {
      SecondCopyWaits(p, batchSize, tag, index0, t);
    }
  }

  lemma FirstCopy(p: Providers, batchSize: int, tag: string, index0: Index, t: string)
    requires batchSize >= 2
    requires p.hash(t) !in index0
    ensures Step(p, batchSize, tag, false, Init(index0), t) == Progress(index0, [MakeRecord(p, t, tag)], 1, 0, [t], [])
  {
  }

  lemma SecondCopyFlushes(p: Providers, tag: string, index0: Index, t: string)
    requires p.hash(t) !in index0
    ensures var r := MakeRecord(p, t, tag);
            var s2 := Step(p, 2, tag, false, Progress(index0, [r], 1, 0, [t], []), t);
            && s2 == Progress(Apply(index0, [r, r]), [], 2, 0, [t, t], [[r, r]])
            && Flush(s2) == Outcome(Apply(index0, [r, r]), 2, 0, [t, t], [[r, r]])
  {
    var r := MakeRecord(p, t, tag);
    assert [r] + [r] == [r, r] && [t] + [t] == [t, t];
  }

  lemma SecondCopyWaits(p: Providers, batchSize: int, tag: string, index0: Index, t: string)
    requires batchSize > 2
    requires p.hash(t) !in index0
    ensures var r := MakeRecord(p, t, tag);
            var s2 := Step(p, batchSize, tag, false, Progress(index0, [r], 1, 0, [t], []), t);
            && s2 == Progress(index0, [r, r], 2, 0, [t, t], [])
            && Flush(s2) == Outcome(Apply(index0, [r, r]), 2, 0, [t, t], [[r, r]])
  {
    var r := MakeRecord(p, t, tag);
    assert [r] + [r] == [r, r] && [t] + [t] == [t, t];
    assert [] + [[r, r]] == [[r, r]];
  }

  lemma LoopPair(p: Providers, batchSize: int, tag: string, seePending: bool, s: Progress, t: string)
    ensures Loop(p, batchSize, tag, seePending, s, [t, t])
            == Step(p, batchSize, tag, seePending, Step(p, batchSize, tag, seePending, s, t), t)
  {
    var s1 := Step(p, batchSize, tag, seePending, s, t);
    assert [t, t][1..] == [t];
    assert [t][1..] == [];
    assert Loop(p, batchSize, tag, seePending, s, [t, t]) == Loop(p, batchSize, tag, seePending, s1, [t]);
  }

  lemma IdsPair(r: Record)
    ensures Ids([r, r]) == {r.id}
  {
    assert [r, r][..1] == [r];
    assert Ids([r]) == Ids([]) + {r.id};
  }

  lemma StepCount(p: Providers, batchSize: int, tag: string, index0: Index, s: Progress, text: string)
    requires index0.Keys <= s.index.Keys
    ensures var s' := Step(p, batchSize, tag, true, s, text);
            && index0.Keys <= s'.index.Keys
            && Pending(s') == Pending(s) + {p.hash(text)}
            && (if p.hash(text) in Pending(s) then s'.indexed == s.indexed
                else s'.indexed == s.indexed + 1 && p.hash(text) !in index0)
  {
    StepPending(p, batchSize, tag, true, s, text);
  }

  /** Adding one key to a pending set grows the count of new keys by one
      exactly when the key was neither pending nor already stored. */
  lemma CountAdd(pending: set<string>, pending': set<string>, old0: set<string>, id: string, n: int, n': int)
    requires pending' == pending + {id}
    requires n == |pending - old0|
    requires if id in pending then n' == n else n' == n + 1 && id !in old0
    ensures n' == |pending' - old0|
  {
    if id !in pending {
      assert pending' - old0 == (pending - old0) + {id};
    } else {
      assert pending' == pending;
    }
  }

  lemma {:induction false} DistinctLoop(p: Providers, batchSize: int, tag: string, index0: Index,
                                        s: Progress, ts: seq<string>)
    requires index0.Keys <= s.index.Keys
    requires s.indexed == |Pending(s) - index0.Keys|
    ensures Loop(p, batchSize, tag, true, s, ts).indexed == |Pending(Loop(p, batchSize, tag, true, s, ts)) - index0.Keys|
    decreases |ts|
  {
    if ts != [] {
      var s' := Step(p, batchSize, tag, true, s, ts[0]);
      var id := p.hash(ts[0]);
      StepCount(p, batchSize, tag, index0, s, ts[0]);
      CountAdd(Pending(s), Pending(s'), index0.Keys, id, s.indexed, s'.indexed);
      DistinctLoop(p, batchSize, tag, index0, s', ts[1..]);
    }
  }

  lemma FlushKeys(s: Progress)
    ensures Flush(s).index.Keys == Pending(s) && Flush(s).indexed == s.indexed
  {
  }

  /** Corrected loop: when `fetch` is also checked against the pending
      batch, the number reported as indexed is exactly the number of
      records the call added. */
  lemma PendingAwareCountsDistinct(p: Providers, batchSize: int, tag: string, index0: Index, ts: seq<string>)
    ensures var o := Run(p, batchSize, tag, true, index0, ts);
            o.indexed == |o.index.Keys - index0.Keys|
  {
    var s0 := Init(index0);
    assert Ids([]) == {};
    assert Pending(s0) - index0.Keys == {};
    DistinctLoop(p, batchSize, tag, index0, s0, ts);
    FlushKeys(Loop(p, batchSize, tag, true, s0, ts));
  }

  /** The corrected loop skips the second copy of a repeated text. */
  lemma PendingAwareSkipsDuplicate(p: Providers, batchSize: int, tag: string, index0: Index, t: string)
    requires p.hash(t) !in index0
    ensures var o := Run(p, batchSize, tag, true, index0, [t, t]);
            o.indexed == 1 && o.skipped == 1
  {
    var s0 := Init(index0);
    assert Ids([]) == {};
    LoopPair(p, batchSize, tag, true, s0, t);
    StepCount(p, batchSize, tag, index0, s0, t);
    StepPending(p, batchSize, tag, true, s0, t);
    var s1 := Step(p, batchSize, tag, true, s0, t);
    StepCount(p, batchSize, tag, index0, s1, t);
    StepPending(p, batchSize, tag, true, s1, t);
  }

  /** `upsert_chunks` with the duplicate check corrected to look at the
      pending batch as well: every count the as-written version promises,
      and `indexed` equals the number of records the call added. */
  function UpsertDistinct(settings: Settings, p: Providers, index: Index, chunks: seq<Item>,
                          batchSize: int, docId: Option<string>): (r: Result<Outcome, ConfigError>)
    ensures !IsSet(settings.apiKey) ==> r == Failure(ApiKeyNotSet)
    ensures IsSet(settings.apiKey) && !IsSet(settings.indexName) ==> r == Failure(IndexNameNotSet)
    ensures r.Success? <==> IsSet(settings.apiKey) && IsSet(settings.indexName)
    ensures r.Success? ==> r.value.indexed + r.value.skipped == |chunks|
    ensures r.Success? ==> r.value.indexed == |r.value.index.Keys - index.Keys|
    ensures r.Success? ==> forall i :: 0 <= i < |chunks| ==> p.hash(TextOf(chunks[i])) in r.value.index
    ensures r.Success? ==> forall c :: c in r.value.calls ==>
              forall rec :: rec in c ==> rec.metadata.docId == DocLabel(docId)
  {
    if !IsSet(settings.apiKey) then Failure(ApiKeyNotSet)
    else if !IsSet(settings.indexName) then Failure(IndexNameNotSet)
    else
      var ts := Texts(chunks);
      var o := Run(p, batchSize, DocLabel(docId), true, index, ts);
      RunCounts(p, batchSize, DocLabel(docId), true, index, ts);
      RunCovers(p, batchSize, DocLabel(docId), true, index, ts);
      RunLabels(p, batchSize, DocLabel(docId), true, index, ts);
      PendingAwareCountsDistinct(p, batchSize, DocLabel(docId), index, ts);
      assert forall i :: 0 <= i < |chunks| ==> ts[i] in ts;
      Success(o)
  }

  /** On the input that shows the discrepancy, two copies of one new text,
      the corrected call indexes one and skips the other. */
  lemma UpsertDistinctSkipsDuplicate(settings: Settings, p: Providers, index: Index, c: Chunk,
                                     batchSize: int, docId: Option<string>)
    requires IsSet(settings.apiKey) && IsSet(settings.indexName)
    requires p.hash(c.text) !in index
    ensures var r := UpsertDistinct(settings, p, index, [DictItem(c), DictItem(c)], batchSize, docId);
            r.Success? && r.value.indexed == 1 && r.value.skipped == 1
  {
    assert Texts([DictItem(c), DictItem(c)]) == [c.text, c.text];
    PendingAwareSkipsDuplicate(p, batchSize, DocLabel(docId), index, c.text);
  }

  /** The same input through the code as written: both copies are counted
      as indexed and sent in one request, though only one key is added. */
  lemma UpsertChunksCountsDuplicate(settings: Settings, p: Providers, index: Index, c: Chunk,
                                    batchSize: int, docId: Option<string>)
    requires IsSet(settings.apiKey) && IsSet(settings.indexName)
    requires batchSize >= 2
    requires p.hash(c.text) !in index
    ensures var r := UpsertChunks(settings, p, index, [DictItem(c), DictItem(c)], batchSize, docId);
            && r.Success? && r.value.indexed == 2 && r.value.skipped == 0
            && |r.value.index.Keys - index.Keys| == 1
  {
    assert Texts([DictItem(c), DictItem(c)]) == [c.text, c.text];
    DuplicateCountedTwice(p, batchSize, DocLabel(docId), index, c.text);
  }
}
