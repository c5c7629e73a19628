/**
  The seen-set of sample hashes (main.py, `generate_samples`): built at start-up
  from every line of the dataset file that `json.loads` accepts, and the
  duplicate-freedom it is meant to give the file.

  `parse` stands for `json.loads` (None where it raises) and `hash` for
  `hash_sample`; neither is interpreted, and `hash` is not assumed injective.
*/
module Dedup {
  import opened Wrappers

  /** A hash `h` comes from some line of `lines` that parses. */
  ghost predicate HashOfSomeLine<V, H>(parse: string -> Option<V>, hash: V -> H, lines: seq<string>, h: H) {
    exists k :: 0 <= k < |lines| && parse(lines[k]).Some? && hash(parse(lines[k]).value) == h
  }

  /**
    The start-up loop: for each line, in order, add the hash of what it parses
    to; skip a line that does not parse.
  */
  function Bootstrap<V, H>(parse: string -> Option<V>, hash: V -> H, lines: seq<string>): (seen: set<H>)
    ensures forall h :: h in seen ==> HashOfSomeLine(parse, hash, lines, h)
    ensures forall k :: 0 <= k < |lines| && parse(lines[k]).Some? ==> hash(parse(lines[k]).value) in seen
  {
    if lines == [] then {}
    else
      var prefix := lines[..|lines| - 1];
      var prev := Bootstrap(parse, hash, prefix);
      assert forall k :: 0 <= k < |prefix| ==> prefix[k] == lines[k];
      match parse(lines[|lines| - 1])
      case None => prev
      case Some(v) => prev + {hash(v)}
  }


  /** Loading a file made of two parts gives the union of what each part gives. */
  lemma BootstrapAppend<V, H>(parse: string -> Option<V>, hash: V -> H, a: seq<string>, b: seq<string>)
    ensures Bootstrap(parse, hash, a + b) == Bootstrap(parse, hash, a) + Bootstrap(parse, hash, b)
  {
    var ab := a + b;
    forall h | h in Bootstrap(parse, hash, ab)
      ensures h in Bootstrap(parse, hash, a) + Bootstrap(parse, hash, b)
    {
      var k :| 0 <= k < |ab| && parse(ab[k]).Some? && hash(parse(ab[k]).value) == h;
      if k >= |a| {
        assert ab[k] == b[k - |a|];
      }
    }
    forall h | h in Bootstrap(parse, hash, b)
      ensures h in Bootstrap(parse, hash, ab)
    {
      var k :| 0 <= k < |b| && parse(b[k]).Some? && hash(parse(b[k]).value) == h;
      assert ab[k + |a|] == b[k];
    }
    forall h | h in Bootstrap(parse, hash, a)
      ensures h in Bootstrap(parse, hash, ab)
    {
      var k :| 0 <= k < |a| && parse(a[k]).Some? && hash(parse(a[k]).value) == h;
      assert ab[k] == a[k];
    }
  }

  /** No two lines that parse have the same hash. */
  ghost predicate DuplicateFree<V, H>(parse: string -> Option<V>, hash: V -> H, lines: seq<string>) {
    forall a, b :: 0 <= a < b < |lines| && parse(lines[a]).Some? && parse(lines[b]).Some?
      ==> hash(parse(lines[a]).value) != hash(parse(lines[b]).value)
  }
}
