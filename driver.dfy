/**
  `generate_samples` as the program runs it (main.py): the start-up loop that
  fills the seen-set, then the batch loop with its inner retry loop, appending
  to the open dataset file. Each loop is proved to compute what the functions
  of module `Generator` specify.
*/
module Driver {
  import opened Wrappers
  import opened JsonSpan
  import Prompt
  import Dedup
  import opened Generator

  /** The dataset file: a sequence of lines, opened for appending. */
  class DatasetFile {
    var lines: seq<string>

    /** `f.write(line + "\n")`. */
    method Append(line: string)
      modifies this
      ensures lines == old(lines) + [line]
    {
      lines := lines + [line];
    }
  }

  /**
    The start-up loop: the hash of every line that `json.loads` accepts, lines
    it rejects skipped. A missing file reads as an empty one.
  */
  method LoadSeen<V, H(==)>(lib: Library<V, H>, file: DatasetFile) returns (seen: set<H>)
    ensures seen == Dedup.Bootstrap(lib.parse, lib.hash, file.lines)
  {
    seen := {};
    for k := 0 to |file.lines|
      invariant seen == Dedup.Bootstrap(lib.parse, lib.hash, file.lines[..k])
    {
      assert file.lines[..k + 1][..k] == file.lines[..k];
      var existing := lib.parse(file.lines[k]);
      if existing.Some? {
        seen := seen + {lib.hash(existing.value)};
      }
    }
    assert file.lines[..|file.lines|] == file.lines;
  }

  /**
    Two start-ups on the same file build the same seen-set, whatever it holds.
  */
  method LoadSeenTwice<V, H(==)>(lib: Library<V, H>, file: DatasetFile) returns (first: set<H>, second: set<H>)
    ensures first == second
    ensures forall h :: h in first <==> Dedup.HashOfSomeLine(lib.parse, lib.hash, file.lines, h)
  {
    first := LoadSeen(lib, file);
    second := LoadSeen(lib, file);
  }

  /**
    One remote call, with a prompt built afresh by `get_prompt`: the template,
    then a five-digit randomisation ID in 10000..99999, then a newline.
  */
  method CallRemote(remote: Remote, call: nat) returns (reply: Reply)
    ensures reply == ReplyTo(remote, call)
    ensures exists id: string ::
      && |id| == 5 && (forall k :: 0 <= k < 5 ==> Prompt.IsDigit(id[k]))
      && Prompt.SeedLow <= Prompt.DecimalValue(id) <= Prompt.SeedHigh
      && reply == remote.complete(call, remote.template + id + "\n")
  {
    var prompt := Prompt.GetPrompt(remote.template, remote.draw(call));
    reply := remote.complete(call, prompt);
    var n := |remote.template|;
    Prompt.GetPromptSpec(remote.template, remote.draw(call));
    var id := prompt[n..n + 5];
    assert prompt == remote.template + id + "\n";
  }

  /**
    Strip the reply, then search it for `\{.*\}`: the same span as searching
    the reply unstripped.
  */
  method FindJson(text: string) returns (json: Option<string>)
    ensures json == ExtractJson(text)
  {
    var content := Strip(text);
    ExtractIgnoresStrip(text);
    json := ExtractJson(content);
  }

  /**
    One sample index: the `while retries > 0` loop. Only a raised exception
    spends a retry; every answered call ends the loop, whether its reply held
    no JSON span, an unparsable one, a duplicate or a new sample.
  */
  method GenerateOne<V, H(==)>(remote: Remote, ghost replies: nat -> Reply, lib: Library<V, H>, file: DatasetFile,
                               seen0: set<H>, calls0: nat, ghost saved0: seq<V>, ghost outcomes: seq<Outcome>)
    returns (seen: set<H>, calls: nat, ghost saved: seq<V>, ghost outcome: Outcome)
    requires forall c: nat :: replies(c) == ReplyTo(remote, c)
    modifies file
    ensures (RunState(seen, file.lines, calls, saved, outcomes), outcome) ==
            Attempts(replies, lib, MaxRetries, RunState(seen0, old(file.lines), calls0, saved0, outcomes))
  {
    ghost var before := RunState(seen0, file.lines, calls0, saved0, outcomes);
    seen, calls, saved, outcome := seen0, calls0, saved0, GaveUp;
    var retries := MaxRetries;
    while retries > 0
      invariant outcome == GaveUp
      invariant Attempts(replies, lib, MaxRetries, before) ==
                Attempts(replies, lib, retries, RunState(seen, file.lines, calls, saved, outcomes))
    {
      ghost var top := RunState(seen, file.lines, calls, saved, outcomes);
      var reply := CallRemote(remote, calls);
      assert reply == replies(top.calls);
      calls := calls + 1;
      ghost var next := top.(calls := calls);
      if reply.Raised? {
        assert Attempts(replies, lib, retries, top) == Attempts(replies, lib, retries - 1, next);
        retries := retries - 1;
      } else {
        assert Attempts(replies, lib, retries, top) == Handle(lib, reply.text, next);
        seen, saved, outcome := HandleReply(lib, file, seen, reply.text, next);
        break;
      }
    }
  }

  /**
    One answered call (main.py:103-125): strip and search the reply, parse
    the span, and append the sample unless its hash was seen. Every branch
    ends the retry loop.
  */
  method HandleReply<V, H(==)>(lib: Library<V, H>, file: DatasetFile, seen0: set<H>, text: string,
                               ghost st: RunState<V, H>)
    returns (seen: set<H>, ghost saved: seq<V>, ghost outcome: Outcome)
    requires st.seen == seen0 && st.lines == file.lines
    modifies file
    ensures (RunState(seen, file.lines, st.calls, saved, st.outcomes), outcome) == Handle(lib, text, st)
  {
    seen, saved := seen0, st.saved;
    var json := FindJson(text);
    if json.None? {
      outcome := NoJson;
      return;
    }
    var sample := lib.parse(json.value);
    if sample.None? {
      outcome := InvalidJson;
      return;
    }
    var sampleHash := lib.hash(sample.value);
    if sampleHash !in seen {
      seen := seen + {sampleHash};
      file.Append(lib.dump(sample.value));
      saved := saved + [sample.value];
      outcome := Saved;
    } else {
      outcome := Duplicate;
    }
  }

  /**
    `generate_samples(batch_size)`: the file ends up as the specification
    `Generator.Generate` says, whose properties `Generator.RunSpec`,
    `Generator.ReloadAfterRun` and `Generator.RunKeepsDuplicateFree` state.
  */
  method GenerateSamples<V, H(==)>(remote: Remote, lib: Library<V, H>, file: DatasetFile, batchSize: nat)
    returns (ghost run: RunState<V, H>)
    modifies file
    ensures run == Generate(Replies(remote), lib, old(file.lines), batchSize)
    ensures file.lines == run.lines
    ensures old(file.lines) <= file.lines && |file.lines| <= |old(file.lines)| + batchSize
  {
    ghost var replies := Replies(remote);
    ghost var lines0 := file.lines;
    var seen := LoadSeen(lib, file);
    var calls: nat := 0;
    ghost var saved: seq<V> := [];
    ghost var outcomes: seq<Outcome> := [];
    for i := 0 to batchSize
      invariant RunState(seen, file.lines, calls, saved, outcomes) == Batch(replies, lib, i, Start(lib, lines0))
    {
      ghost var outcome;
      seen, calls, saved, outcome := GenerateOne(remote, replies, lib, file, seen, calls, saved, outcomes);
      outcomes := outcomes + [outcome];
    }
    run := RunState(seen, file.lines, calls, saved, outcomes);
    RunSpec(replies, lib, lines0, batchSize);
  }
}
