/**
  The batch driver `generate_samples` (main.py): load the seen-set, then for
  each of `batch_size` sample indices call the remote model (with up to three
  attempts, only a raised exception costing one), extract and parse the JSON
  object of the reply, and append it to the dataset file unless its hash was
  seen before.

  Everything foreign is a parameter: the remote call and the random draws of
  `get_prompt` (`Remote`, seen by the loop as the stream of its replies), and
  `json.loads`, `json.dumps` and `hash_sample` (`Library`).
*/
module Generator {
  import opened Wrappers
  import opened JsonSpan
  import Prompt
  import Dedup

  /** What one remote call gives: the completion text, or an exception. */
  datatype Reply = Ok(text: string) | Raised

  /** The remote model as the program uses it. */
  datatype Remote = Remote(
    template: string,                 // the prompt body before the randomisation ID
    draw: nat -> nat,                 // the random generator's state at each call
    complete: (nat, string) -> Reply) // the n-th chat completion, for a prompt

  /** The reply to remote call number `call`, whose prompt carries a fresh seed. */
  function ReplyTo(remote: Remote, call: nat): Reply {
    remote.complete(call, Prompt.GetPrompt(remote.template, remote.draw(call)))
  }

  /** The replies to the remote calls, in order. */
  function Replies(remote: Remote): nat -> Reply {
    (call: nat) => ReplyTo(remote, call)
  }

  /** The library code the loop relies on. */
  datatype Library<!V, H> = Library(
    parse: string -> Option<V>,       // json.loads, None where it raises
    dump: V -> string,                // json.dumps
    hash: V -> H)                     // hash_sample

  /** The retry budget of one sample index. */
  const MaxRetries: nat := 3

  /** How the processing of one sample index ended. */
  datatype Outcome = Saved | Duplicate | InvalidJson | NoJson | GaveUp

  /**
    The state of a run: the seen-set, the file's lines, the number of remote
    calls made so far, and (for the proofs) the samples appended and the
    outcome of each sample index.
  */
  datatype RunState<V, H> = RunState(
    seen: set<H>, lines: seq<string>, calls: nat, saved: seq<V>, outcomes: seq<Outcome>)

  /**
    Extract, parse, deduplicate and append the text of one successful reply.
    The program strips the text first; `JsonSpan.ExtractIgnoresStrip` shows
    that this never changes the span found, so the specification omits it.
  */
  function Handle<V, H(==)>(lib: Library<V, H>, text: string, st: RunState<V, H>): (RunState<V, H>, Outcome) {
    match ExtractJson(text)
    case None => (st, NoJson)
    case Some(json) =>
      match lib.parse(json)
      case None => (st, InvalidJson)
      case Some(v) =>
        if lib.hash(v) in st.seen then (st, Duplicate)
        else (st.(seen := st.seen + {lib.hash(v)}, lines := st.lines + [lib.dump(v)], saved := st.saved + [v]),
              Saved)
  }

  /** The `while retries > 0` loop with `retries` attempts left. */
  function Attempts<V, H(==)>(replies: nat -> Reply, lib: Library<V, H>, retries: nat, st: RunState<V, H>): (RunState<V, H>, Outcome)
    decreases retries
  {
    if retries == 0 then (st, GaveUp)
    else
      var next := st.(calls := st.calls + 1);
      match replies(st.calls)
      case Raised => Attempts(replies, lib, retries - 1, next)
      case Ok(text) => Handle(lib, text, next)
  }

  /** One iteration of the `for i in range(batch_size)` loop. */
  function SampleStep<V, H(==)>(replies: nat -> Reply, lib: Library<V, H>, st: RunState<V, H>): RunState<V, H> {
    var (r, o) := Attempts(replies, lib, MaxRetries, st);
    r.(outcomes := r.outcomes + [o])
  }

  /** The state after `n` iterations of the batch loop. */
  function Batch<V, H(==)>(replies: nat -> Reply, lib: Library<V, H>, n: nat, st: RunState<V, H>): RunState<V, H> {
    if n == 0 then st else SampleStep(replies, lib, Batch(replies, lib, n - 1, st))
  }

  /** The state once the existing file has been loaded. */
  function Start<V, H(==)>(lib: Library<V, H>, lines: seq<string>): RunState<V, H> {
    RunState(Dedup.Bootstrap(lib.parse, lib.hash, lines), lines, 0, [], [])
  }

  /** A whole run of `generate_samples(batch_size)` on a file holding `lines`. */
  function Generate<V, H(==)>(replies: nat -> Reply, lib: Library<V, H>, lines: seq<string>, batchSize: nat): RunState<V, H> {
    Batch(replies, lib, batchSize, Start(lib, lines))
  }

  /** How many times `o` occurs in `os`. */
  function Count(os: seq<Outcome>, o: Outcome): (n: nat)
    ensures n <= |os|
  {
    if os == [] then 0 else Count(os[..|os| - 1], o) + (if os[|os| - 1] == o then 1 else 0)
  }

  /**
    What one successful reply does to the state: an outcome other than `Saved`
    leaves it as it was; `Saved` happens exactly when a JSON span was found, it
    parsed, and its hash was not yet seen, and then the file grows by exactly
    the serialized sample and the seen-set by exactly its hash.
  */
  lemma HandleEffect<V, H>(lib: Library<V, H>, text: string, st: RunState<V, H>)
    ensures var (r, o) := Handle(lib, text, st);
      && o != GaveUp
      && (o == NoJson <==> ExtractJson(text).None?)
      && (o == Saved <==> ExtractJson(text).Some? && lib.parse(ExtractJson(text).value).Some?
                          && lib.hash(lib.parse(ExtractJson(text).value).value) !in st.seen)
      && (o != Saved ==> r == st)
      && (o == Saved ==> var v := lib.parse(ExtractJson(text).value).value;
                         && r == st.(seen := st.seen + {lib.hash(v)}, lines := st.lines + [lib.dump(v)],
                                     saved := st.saved + [v]))
  {
  }

  /**
    The retry loop makes at least one call (when it has a retry left) and at
    most one per retry, and every call but its last one raised.
  */
  lemma {:induction false} AttemptsCalls<V, H>(replies: nat -> Reply, lib: Library<V, H>, retries: nat, st: RunState<V, H>)
    ensures var (r, o) := Attempts(replies, lib, retries, st);
      && st.calls + (if retries == 0 then 0 else 1) <= r.calls <= st.calls + retries
      && (forall c :: st.calls <= c < r.calls - 1 ==> replies(c).Raised?)
  {
    if retries > 0 {
      var next := st.(calls := st.calls + 1);
      match replies(st.calls)
      case Raised =>
        AttemptsCalls(replies, lib, retries - 1, next);
      case Ok(text) =>
        HandleEffect(lib, text, next);
    }
  }

  /**
    The retry loop gives up exactly when every one of its calls raised, and
    then nothing but the number of calls has changed.
  */
  lemma {:induction false} AttemptsGiveUp<V, H>(replies: nat -> Reply, lib: Library<V, H>, retries: nat, st: RunState<V, H>)
    ensures var (r, o) := Attempts(replies, lib, retries, st);
      && (o == GaveUp <==> forall c :: st.calls <= c < st.calls + retries ==> replies(c).Raised?)
      && (o == GaveUp ==> r == st.(calls := st.calls + retries))
  {
    if retries > 0 {
      var next := st.(calls := st.calls + 1);
      match replies(st.calls)
      case Raised =>
        AttemptsGiveUp(replies, lib, retries - 1, next);
      case Ok(text) =>
        HandleEffect(lib, text, next);
    }
  }

  /**
    When the retry loop does not give up, its last call answered and that
    answer alone decides the outcome and the new state: a missing span, a
    parse failure or a duplicate ends the loop with no retry spent.
  */
  lemma {:induction false} AttemptsAnswered<V, H>(replies: nat -> Reply, lib: Library<V, H>, retries: nat, st: RunState<V, H>)
    ensures var (r, o) := Attempts(replies, lib, retries, st);
      o != GaveUp ==> && r.calls >= 1 && replies(r.calls - 1).Ok?
                      && (r, o) == Handle(lib, replies(r.calls - 1).text, st.(calls := r.calls))
  {
    if retries > 0 {
      var next := st.(calls := st.calls + 1);
      match replies(st.calls)
      case Raised =>
        AttemptsAnswered(replies, lib, retries - 1, next);
      case Ok(text) =>
        HandleEffect(lib, text, next);
    }
  }

  /**
    A reply with no '{' ... '}' in it ends the sample at once: one call, no
    retry spent, nothing written, the seen-set unchanged.
  */
  lemma NoJsonEndsSample<V, H>(replies: nat -> Reply, lib: Library<V, H>, st: RunState<V, H>)
    requires replies(st.calls).Ok?
    requires forall i, j :: 0 <= i < j < |replies(st.calls).text| ==>
               !(replies(st.calls).text[i] == '{' && replies(st.calls).text[j] == '}')
    ensures Attempts(replies, lib, MaxRetries, st) == (st.(calls := st.calls + 1), NoJson)
  {
    var text := replies(st.calls).text;
    SearchJsonSucceedsIff(text);
  }

  /** The serialized lines of the samples `vs`, in order. */
  function Dumps<V>(dump: V -> string, vs: seq<V>): (ls: seq<string>)
    ensures |ls| == |vs| && forall k :: 0 <= k < |vs| ==> ls[k] == dump(vs[k])
  {
    seq(|vs|, k requires 0 <= k < |vs| => dump(vs[k]))
  }

  /** The hashes of the samples `vs`. */
  function HashesOf<V, H>(hash: V -> H, vs: seq<V>): (hs: set<H>)
    ensures forall k :: 0 <= k < |vs| ==> hash(vs[k]) in hs
    ensures forall h :: h in hs ==> exists k :: 0 <= k < |vs| && hash(vs[k]) == h
  {
    set k | 0 <= k < |vs| :: hash(vs[k])
  }

  /**
    The invariant of a run that started on `lines0` with seen-set `seen0`: the
    file is the old file followed by the appended samples, the seen-set is the
    old one plus their hashes, their hashes are pairwise distinct and none of
    them was in `seen0`.
  */
  ghost predicate Inv<V, H>(lib: Library<V, H>, seen0: set<H>, lines0: seq<string>, st: RunState<V, H>) {
    && st.lines == lines0 + Dumps(lib.dump, st.saved)
    && st.seen == seen0 + HashesOf(lib.hash, st.saved)
    && (forall a, b :: 0 <= a < b < |st.saved| ==> lib.hash(st.saved[a]) != lib.hash(st.saved[b]))
    && (forall a :: 0 <= a < |st.saved| ==> lib.hash(st.saved[a]) !in seen0)
  }

  /** Appending a sample whose hash is not yet seen keeps the invariant. */
  lemma InvAppend<V, H>(lib: Library<V, H>, seen0: set<H>, lines0: seq<string>, st: RunState<V, H>, v: V)
    requires Inv(lib, seen0, lines0, st)
    requires lib.hash(v) !in st.seen
    ensures Inv(lib, seen0, lines0, st.(seen := st.seen + {lib.hash(v)}, lines := st.lines + [lib.dump(v)],
                                        saved := st.saved + [v]))
  {
    var saved := st.saved + [v];
    assert Dumps(lib.dump, saved) == Dumps(lib.dump, st.saved) + [lib.dump(v)];
    forall h | h in HashesOf(lib.hash, saved) ensures h in HashesOf(lib.hash, st.saved) + {lib.hash(v)} {
      var k :| 0 <= k < |saved| && lib.hash(saved[k]) == h;
      if k < |st.saved| {
        assert saved[k] == st.saved[k];
      }
    }
    forall k | 0 <= k < |st.saved| ensures lib.hash(st.saved[k]) in HashesOf(lib.hash, saved) {
      assert saved[k] == st.saved[k];
    }
    assert lib.hash(saved[|st.saved|]) in HashesOf(lib.hash, saved);
    forall a | 0 <= a < |st.saved| ensures lib.hash(saved[a]) != lib.hash(v) {
      assert lib.hash(st.saved[a]) in st.seen;
    }
  }

  lemma SampleStepKeepsInv<V, H>(replies: nat -> Reply, lib: Library<V, H>, seen0: set<H>, lines0: seq<string>, st: RunState<V, H>)
    requires Inv(lib, seen0, lines0, st)
    ensures Inv(lib, seen0, lines0, SampleStep(replies, lib, st))
  {
    AttemptsGiveUp(replies, lib, MaxRetries, st);
    AttemptsAnswered(replies, lib, MaxRetries, st);
    var (r, o) := Attempts(replies, lib, MaxRetries, st);
    if o != GaveUp {
      var mid := st.(calls := r.calls);
      var text := replies(r.calls - 1).text;
      HandleEffect(lib, text, mid);
      if o == Saved {
        var v := lib.parse(ExtractJson(text).value).value;
        InvAppend(lib, seen0, lines0, mid, v);
      }
    }
  }

  /**
    One iteration of the batch loop records one outcome, makes one to three
    remote calls, never shrinks the seen-set or the appended samples, and
    appends a sample exactly when its outcome is `Saved`.
  */
  lemma SampleStepEffect<V, H>(replies: nat -> Reply, lib: Library<V, H>, st: RunState<V, H>)
    ensures var r := SampleStep(replies, lib, st);
      && st.calls + 1 <= r.calls <= st.calls + MaxRetries
      && |r.outcomes| == |st.outcomes| + 1 && r.outcomes[..|st.outcomes|] == st.outcomes
      && st.seen <= r.seen && st.saved <= r.saved
      && |r.saved| == |st.saved| + (if r.outcomes[|st.outcomes|] == Saved then 1 else 0)
  {
    AttemptsCalls(replies, lib, MaxRetries, st);
    AttemptsGiveUp(replies, lib, MaxRetries, st);
    AttemptsAnswered(replies, lib, MaxRetries, st);
    var (r, o) := Attempts(replies, lib, MaxRetries, st);
    if o != GaveUp {
      HandleEffect(lib, replies(r.calls - 1).text, st.(calls := r.calls));
    }
  }

  /** `n` iterations of the batch loop keep `Inv`, and the seen-set and the appended samples only grow. */
  lemma {:induction false} BatchKeepsInv<V, H>(replies: nat -> Reply, lib: Library<V, H>, n: nat, seen0: set<H>, lines0: seq<string>, st: RunState<V, H>)
    requires Inv(lib, seen0, lines0, st)
    ensures var r := Batch(replies, lib, n, st);
      Inv(lib, seen0, lines0, r) && st.seen <= r.seen && st.saved <= r.saved
  {
    if n > 0 {
      var prev := Batch(replies, lib, n - 1, st);
      BatchKeepsInv(replies, lib, n - 1, seen0, lines0, st);
      SampleStepKeepsInv(replies, lib, seen0, lines0, prev);
      SampleStepEffect(replies, lib, prev);
    }
  }

  lemma CountSnoc(os: seq<Outcome>, x: Outcome, o: Outcome)
    ensures Count(os + [x], o) == Count(os, o) + (if x == o then 1 else 0)
  {
    assert (os + [x])[..|os|] == os;
  }

  /** One iteration appends at most one sample, and does so exactly when it records `Saved`. */
  lemma SampleStepSaves<V, H>(replies: nat -> Reply, lib: Library<V, H>, st: RunState<V, H>)
    ensures var r := SampleStep(replies, lib, st);
      && |st.saved| <= |r.saved| <= |st.saved| + 1
      && Count(r.outcomes, Saved) == Count(st.outcomes, Saved) + |r.saved| - |st.saved|
  {
    SampleStepEffect(replies, lib, st);
    var r := SampleStep(replies, lib, st);
    var x := r.outcomes[|st.outcomes|];
    assert r.outcomes == st.outcomes + [x];
    CountSnoc(st.outcomes, x, Saved);
  }

  /** `n` iterations of the batch loop record exactly `n` more outcomes, keeping the earlier ones. */
  lemma {:induction false} BatchOutcomes<V, H>(replies: nat -> Reply, lib: Library<V, H>, n: nat, st: RunState<V, H>)
    ensures var r := Batch(replies, lib, n, st);
      |r.outcomes| == |st.outcomes| + n && st.outcomes <= r.outcomes
  {
    if n > 0 {
      var prev := Batch(replies, lib, n - 1, st);
      BatchOutcomes(replies, lib, n - 1, st);
      SampleStepEffect(replies, lib, prev);
      var next := Batch(replies, lib, n, st);
      assert next.outcomes[..|st.outcomes|] == prev.outcomes[..|st.outcomes|];
    }
  }

  /** `n` iterations of the batch loop make between `n` and `3n` remote calls. */
  lemma {:induction false} BatchCalls<V, H>(replies: nat -> Reply, lib: Library<V, H>, n: nat, st: RunState<V, H>)
    ensures var r := Batch(replies, lib, n, st);
      st.calls + n <= r.calls <= st.calls + MaxRetries * n
  {
    if n > 0 {
      BatchCalls(replies, lib, n - 1, st);
      SampleStepEffect(replies, lib, Batch(replies, lib, n - 1, st));
    }
  }

  /**
    `n` iterations of the batch loop append exactly one sample per `Saved`
    outcome they record, hence at most `n`.
  */
  lemma {:induction false} BatchSaves<V, H>(replies: nat -> Reply, lib: Library<V, H>, n: nat, st: RunState<V, H>)
    ensures var r := Batch(replies, lib, n, st);
      |r.saved| - |st.saved| == Count(r.outcomes, Saved) - Count(st.outcomes, Saved) <= n
  {
    if n > 0 {
      BatchSaves(replies, lib, n - 1, st);
      SampleStepSaves(replies, lib, Batch(replies, lib, n - 1, st));
    }
  }

  /**
    What one run of `generate_samples(batch_size)` guarantees: the old file is a
    prefix of the new one, followed by the serialized samples of this run; one
    outcome per sample index and one line per `Saved` outcome, so at most
    `batch_size` lines; between one and three remote calls per index; the hashes
    of the appended samples are pairwise distinct and none was already in the
    file; and the seen-set only grew, by exactly those hashes.
  */
  lemma RunSpec<V, H>(replies: nat -> Reply, lib: Library<V, H>, lines0: seq<string>, batchSize: nat)
    ensures var r := Generate(replies, lib, lines0, batchSize);
      var seen0 := Dedup.Bootstrap(lib.parse, lib.hash, lines0);
      && r.lines == lines0 + Dumps(lib.dump, r.saved)
      && |r.outcomes| == batchSize
      && |r.lines| == |lines0| + Count(r.outcomes, Saved) <= |lines0| + batchSize
      && batchSize <= r.calls <= MaxRetries * batchSize
      && (forall a, b :: 0 <= a < b < |r.saved| ==> lib.hash(r.saved[a]) != lib.hash(r.saved[b]))
      && (forall a :: 0 <= a < |r.saved| ==> lib.hash(r.saved[a]) !in seen0)
      && r.seen == seen0 + HashesOf(lib.hash, r.saved)
    ensures forall k :: 0 <= k < batchSize ==>
      var before := Batch(replies, lib, k, Start(lib, lines0));
      before.calls + 1 <= Batch(replies, lib, k + 1, Start(lib, lines0)).calls <= before.calls + MaxRetries
  {
    var st := Start(lib, lines0);
    forall k | 0 <= k < batchSize
      ensures var before := Batch(replies, lib, k, st);
        before.calls + 1 <= Batch(replies, lib, k + 1, st).calls <= before.calls + MaxRetries
    {
      SampleStepEffect(replies, lib, Batch(replies, lib, k, st));
    }
    assert Dumps(lib.dump, []) == [];
    BatchKeepsInv(replies, lib, batchSize, st.seen, lines0, st);
    BatchOutcomes(replies, lib, batchSize, st);
    BatchCalls(replies, lib, batchSize, st);
    BatchSaves(replies, lib, batchSize, st);
  }

  /**
    `json.loads` reads back what `json.dumps` wrote. The model assumes this of
    the library only where a lemma names it.
  */
  ghost predicate RoundTrips<V(!new), H>(lib: Library<V, H>) {
    forall v :: lib.parse(lib.dump(v)) == Some(v)
  }

  /**
    A later start-up that reloads the file rebuilds exactly the seen-set the
    run ended with.
  */
  lemma ReloadAfterRun<V(!new), H>(replies: nat -> Reply, lib: Library<V, H>, lines0: seq<string>, batchSize: nat)
    requires RoundTrips(lib)
    ensures var r := Generate(replies, lib, lines0, batchSize);
      Dedup.Bootstrap(lib.parse, lib.hash, r.lines) == r.seen
  {
    var r := Generate(replies, lib, lines0, batchSize);
    RunSpec(replies, lib, lines0, batchSize);
    ReloadAppended(lib, lines0, r.saved);
  }

  /** Loading a file with serialized samples appended adds exactly their hashes. */
  lemma ReloadAppended<V(!new), H>(lib: Library<V, H>, lines0: seq<string>, saved: seq<V>)
    requires RoundTrips(lib)
    ensures Dedup.Bootstrap(lib.parse, lib.hash, lines0 + Dumps(lib.dump, saved))
         == Dedup.Bootstrap(lib.parse, lib.hash, lines0) + HashesOf(lib.hash, saved)
  {
    var ds := Dumps(lib.dump, saved);
    Dedup.BootstrapAppend(lib.parse, lib.hash, lines0, ds);
    assert Dedup.Bootstrap(lib.parse, lib.hash, ds) == HashesOf(lib.hash, saved) by {
      forall h | h in HashesOf(lib.hash, saved) ensures h in Dedup.Bootstrap(lib.parse, lib.hash, ds) {
        var k :| 0 <= k < |saved| && lib.hash(saved[k]) == h;
        assert lib.parse(ds[k]) == Some(saved[k]);
      }
    }
  }

  /**
    A file in which no two parsable lines share a hash stays so after a run:
    the deduplication holds across runs, not only within one.
  */
  lemma RunKeepsDuplicateFree<V(!new), H>(replies: nat -> Reply, lib: Library<V, H>, lines0: seq<string>, batchSize: nat)
    requires RoundTrips(lib)
    requires Dedup.DuplicateFree(lib.parse, lib.hash, lines0)
    ensures Dedup.DuplicateFree(lib.parse, lib.hash, Generate(replies, lib, lines0, batchSize).lines)
  {
    var r := Generate(replies, lib, lines0, batchSize);
    RunSpec(replies, lib, lines0, batchSize);
    AppendKeepsDuplicateFree(lib, lines0, r.saved);
  }

  /** Appending samples with fresh, pairwise distinct hashes keeps a file duplicate-free. */
  lemma AppendKeepsDuplicateFree<V(!new), H>(lib: Library<V, H>, lines0: seq<string>, saved: seq<V>)
    requires RoundTrips(lib)
    requires Dedup.DuplicateFree(lib.parse, lib.hash, lines0)
    requires forall a, b :: 0 <= a < b < |saved| ==> lib.hash(saved[a]) != lib.hash(saved[b])
    requires forall a :: 0 <= a < |saved| ==> lib.hash(saved[a]) !in Dedup.Bootstrap(lib.parse, lib.hash, lines0)
    ensures Dedup.DuplicateFree(lib.parse, lib.hash, lines0 + Dumps(lib.dump, saved))
  {
    var ls := lines0 + Dumps(lib.dump, saved);
    var n0 := |lines0|;
    forall a, b | 0 <= a < b < |ls| && lib.parse(ls[a]).Some? && lib.parse(ls[b]).Some?
      ensures lib.hash(lib.parse(ls[a]).value) != lib.hash(lib.parse(ls[b]).value)
    {
      if b < n0 {
        assert ls[a] == lines0[a] && ls[b] == lines0[b];
      } else {
        assert lib.parse(ls[b]) == Some(saved[b - n0]);
        if a >= n0 {
          assert lib.parse(ls[a]) == Some(saved[a - n0]);
        } else {
          assert ls[a] == lines0[a];
        }
      }
    }
  }
}
