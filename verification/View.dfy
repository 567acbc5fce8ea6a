/** Reading the store through Git.  Every read spends some of the shared budget, at most one unit of
    it; once the budget has failed every later read fails, and until then a read returns exactly
    what the store holds. */
module View {
  import opened Model
  import opened Graph
  import opened Store
  import opened Metering
  import opened Streaming

  /** No command prints more than `width` bytes of what the store holds. */
  ghost predicate Sized(st: Objects, width: nat) {
    && (forall base, head :: (base, head) in st.revisions ==> |Print(st.revisions[(base, head)])| <= width)
    && (forall before, after :: (before, after) in st.rawDiffs ==> |st.rawDiffs[(before, after)]| <= width)
  }

  class ObjectView {
    const store: Objects
    const meter: Meter
    /** The most that a command prints on either of its streams. */
    const width: nat
    /** The balances when the view was opened. */
    ghost const records: nat
    ghost const nodes: nat
    ghost const inputBytes: nat

    constructor (store: Objects, meter: Meter, width: nat)
      requires Sized(store, width) && !meter.failed && meter.asked == 0
      ensures this.store == store && this.meter == meter && this.width == width && Paced()
      ensures records == meter.records && nodes == meter.nodes && inputBytes == meter.inputBytes
    {
      this.store, this.meter, this.width := store, meter, width;
      this.records, this.nodes, this.inputBytes := meter.records, meter.nodes, meter.inputBytes;
    }

    /** What one read spends at most: of bytes on both streams, and of nodes and records. */
    ghost function Unit(): nat {
      2 * width + 1
    }

    /** Each read asked for has spent at most one unit of each balance, and the budget has failed
        only when that was too much for one of them. */
    ghost predicate Paced()
      reads meter
    {
      && Sized(store, width)
      && (!meter.failed ==>
            && meter.records + Unit() * meter.asked >= records && meter.nodes + Unit() * meter.asked >= nodes
            && meter.inputBytes + Unit() * meter.asked >= inputBytes)
      && (meter.failed ==> Short(meter.asked))
    }

    /** The balances do not cover that many reads. */
    ghost predicate Short(count: nat) {
      records < Unit() * count || nodes < Unit() * count || inputBytes < Unit() * count
    }

    /** A budget that failed does not cover any higher number of reads. */
    lemma MoreIsShort(count: nat)
      requires Paced() && meter.failed && meter.asked <= count
      ensures Short(count)
    {
      assert Unit() * meter.asked <= Unit() * count;
    }

    /** One read more, within one unit of each balance. */
    twostate lemma ReadPaces()
      requires old(Paced()) && meter.asked == old(meter.asked) + 1
      requires old(meter.failed) ==> meter.failed
      requires !meter.failed ==>
                 && meter.records + Unit() >= old(meter.records) && meter.nodes + Unit() >= old(meter.nodes)
                 && meter.inputBytes + Unit() >= old(meter.inputBytes)
      requires meter.failed && !old(meter.failed) ==>
                 old(meter.records) < Unit() || old(meter.nodes) < Unit() || old(meter.inputBytes) < Unit()
      ensures Paced()
    {
      assert Unit() * meter.asked == Unit() * old(meter.asked) + Unit();
    }

    /** One output stream of a command arrives in arbitrary charged chunks, `most` bytes at most;
        `left` is what it may still print. */
    method Charge(most: nat) returns (left: nat)
      modifies meter
      ensures left <= most && (old(meter.failed) ==> meter.failed)
      ensures meter.nodes == old(meter.nodes) && meter.records == old(meter.records) && meter.asked == old(meter.asked)
      ensures !meter.failed ==> meter.inputBytes + most == old(meter.inputBytes) + left
      ensures meter.failed && !old(meter.failed) ==> old(meter.inputBytes) < most
    {
      left := most;
      var chunks: seq<nat> := *;
      for i := 0 to |chunks|
        invariant left <= most && (old(meter.failed) ==> meter.failed)
        invariant meter.nodes == old(meter.nodes) && meter.records == old(meter.records)
        invariant meter.asked == old(meter.asked)
        invariant !meter.failed ==> meter.inputBytes + most == old(meter.inputBytes) + left
        invariant meter.failed && !old(meter.failed) ==> old(meter.inputBytes) < most
      {
        var chunk: nat := if 0 <= chunks[i] <= left then chunks[i] else left;
        var charged := meter.Input(chunk);
        left := left - chunk;
        if !charged {
          return;
        }
      }
    }

    /** One Git command with both its streams. */
    method Command() returns (ok: bool)
      modifies meter
      ensures ok <==> !meter.failed
      ensures old(meter.failed) ==> meter.failed
      ensures meter.nodes == old(meter.nodes) && meter.records == old(meter.records) && meter.asked == old(meter.asked)
      ensures !meter.failed ==> meter.inputBytes + width >= old(meter.inputBytes)
      ensures meter.failed && !old(meter.failed) ==> old(meter.inputBytes) < width
    {
      var _ := Charge(width);
      ok := !meter.failed;
    }

    /** A read that is one command. */
    method Run() returns (ok: bool)
      requires Paced()
      modifies meter
      ensures Paced() && meter.asked == old(meter.asked) + 1
      ensures ok <==> !meter.failed
      ensures old(meter.failed) ==> meter.failed
      ensures meter.nodes == old(meter.nodes)
    {
      hide Sized;
      meter.asked := meter.asked + 1;
      ok := Command();
      ReadPaces();
    }

    method Parents(id: Id) returns (r: Result<seq<Id>>)
      requires Paced()
      modifies meter
      ensures Paced() && meter.asked == old(meter.asked) + 1
      ensures r == if meter.failed then Err(Budget) else Store.Parents(store, id)
      ensures old(meter.failed) ==> meter.failed
      ensures meter.nodes <= old(meter.nodes)
      ensures !meter.failed ==> meter.nodes < old(meter.nodes)
    {
      hide Sized, Paced, Short;
      meter.asked := meter.asked + 1;
      r := ReadParents(id);
      ReadPaces();
    }

    /** The two commands behind `Parents`. */
    method ReadParents(id: Id) returns (r: Result<seq<Id>>)
      modifies meter
      ensures r == if meter.failed then Err(Budget) else Store.Parents(store, id)
      ensures old(meter.failed) ==> meter.failed
      ensures meter.nodes <= old(meter.nodes) && meter.records == old(meter.records) && meter.asked == old(meter.asked)
      ensures !meter.failed ==> meter.nodes + 1 == old(meter.nodes)
      ensures !meter.failed ==> meter.inputBytes + Unit() >= old(meter.inputBytes)
      ensures meter.failed && !old(meter.failed) ==> old(meter.nodes) < 1 || old(meter.inputBytes) < Unit()
    {
      var node := meter.Node();
      if !node {
        return Err(Budget);
      }
      var present := Command();
      if !present {
        return Err(Budget);
      }
      if id !in store.readable || id !in store.graph {
        return Err(Unavailable);
      }
      var listed := Command();
      if !listed {
        return Err(Budget);
      }
      r := Ok(store.graph[id]);
    }

    /** A node and one command. */
    method Probe() returns (ok: bool)
      requires Paced()
      modifies meter
      ensures Paced() && meter.asked == old(meter.asked) + 1
      ensures ok <==> !meter.failed
      ensures old(meter.failed) ==> meter.failed
      ensures meter.nodes <= old(meter.nodes)
    {
      hide Sized, Paced, Short;
      meter.asked := meter.asked + 1;
      ok := meter.Node();
      if ok {
        ok := Command();
      }
      ReadPaces();
    }

    /** The physical check of a boundary commit: `cat-file -e`. */
    method Exists(id: Id) returns (r: Result<()>)
      requires Paced()
      modifies meter
      ensures Paced() && meter.asked == old(meter.asked) + 1
      ensures r == if meter.failed then Err(Budget)
                   else if Store.Parents(store, id).Ok? then Ok(()) else Err(Unavailable)
      ensures old(meter.failed) ==> meter.failed
      ensures meter.nodes <= old(meter.nodes)
    {
      hide Paced;
      var ok := Probe();
      r := if !ok then Err(Budget)
           else if id in store.readable && id in store.graph then Ok(()) else Err(Unavailable);
    }

    method Ancestor(base: Id, head: Id) returns (r: Result<bool>)
      requires Paced()
      modifies meter
      ensures Paced() && meter.asked == old(meter.asked) + 1
      ensures r == if meter.failed then Err(Budget) else IsAncestor(store, base, head)
      ensures old(meter.failed) ==> meter.failed
      ensures meter.nodes <= old(meter.nodes)
    {
      hide Paced;
      var ok := Probe();
      r := if !ok then Err(Budget) else IsAncestor(store, base, head);
    }

    method ReadRawDiff(before: Id, after: Id) returns (r: Result<string>)
      requires Paced()
      modifies meter
      ensures Paced() && meter.asked == old(meter.asked) + 1
      ensures r == if meter.failed then Err(Budget) else RawDiff(store, before, after)
      ensures old(meter.failed) ==> meter.failed
      ensures meter.nodes == old(meter.nodes)
    {
      hide Paced;
      var ok := Run();
      r := if !ok then Err(Budget) else RawDiff(store, before, after);
    }

    method ReadBlob(id: Id) returns (r: Result<string>)
      requires Paced()
      modifies meter
      ensures Paced() && meter.asked == old(meter.asked) + 1
      ensures r == if meter.failed then Err(Budget) else Blob(store, id)
      ensures old(meter.failed) ==> meter.failed
      ensures meter.nodes == old(meter.nodes)
    {
      hide Paced;
      var ok := Run();
      r := if !ok then Err(Budget) else Blob(store, id);
    }

    method ReadPatch(before: Id, after: Id, path: string) returns (r: Result<Patch>)
      requires Paced()
      modifies meter
      ensures Paced() && meter.asked == old(meter.asked) + 1
      ensures r == if meter.failed then Err(Budget) else PatchOf(store, before, after, path)
      ensures old(meter.failed) ==> meter.failed
      ensures meter.nodes == old(meter.nodes)
    {
      hide Paced;
      var ok := Run();
      r := if !ok then Err(Budget) else PatchOf(store, before, after, path);
    }

    /** The revision list, read through the charging stream.  A command that fails may still
        have printed anything at all. */
    method Introduced(base: Id, head: Id) returns (r: Result<seq<Id>>)
      requires Exact(store) && Paced()
      modifies meter
      ensures Paced() && meter.asked == old(meter.asked) + 1
      ensures r == if meter.failed then Err(Budget) else Store.Introduced(store, base, head)
      ensures r.Ok? ==> |r.value| <= width
      ensures old(meter.failed) ==> meter.failed
      ensures meter.nodes <= old(meter.nodes)
    {
      assert Sized(store, width);
      assert (base, head) in store.revisions ==> |Print(store.revisions[(base, head)])| <= width;
      hide Sized, Paced, Short, Exact;
      meter.asked := meter.asked + 1;
      r := ReadRevisions(base, head);
      ReadPaces();
      if r.Ok? {
        PrintIsLonger(r.value);
      }
    }

    /** The command behind `Introduced`, its two streams interleaved. */
    method ReadRevisions(base: Id, head: Id) returns (r: Result<seq<Id>>)
      requires Exact(store) && Sized(store, width)
      modifies meter
      ensures r == if meter.failed then Err(Budget) else Store.Introduced(store, base, head)
      ensures old(meter.failed) ==> meter.failed
      ensures meter.nodes <= old(meter.nodes) && meter.asked == old(meter.asked)
      ensures !meter.failed ==>
                && meter.inputBytes + Unit() >= old(meter.inputBytes)
                && meter.nodes + Unit() >= old(meter.nodes) && meter.records + Unit() >= old(meter.records)
      ensures meter.failed && !old(meter.failed) ==>
                old(meter.inputBytes) < Unit() || old(meter.nodes) < Unit() || old(meter.records) < Unit()
    {
      var out := new CommitStream(meter);
      var listed := (base, head) in store.revisions;
      var text: string := *;
      if listed {
        text := Print(store.revisions[(base, head)]);
        RevisionsAreIds(store, base, head);
        ParsePrint(Lines([], ""), store.revisions[(base, head)]);
      } else if |text| > width {
        text := text[..width];
      }
      var rest := text;
      var written := true;
      var left: nat := width;
      while rest != "" && written
        invariant |rest| <= |text| <= width && left <= width
        invariant old(meter.failed) ==> meter.failed
        invariant meter.nodes <= old(meter.nodes) && meter.asked == old(meter.asked)
        invariant !meter.failed ==>
                    && meter.inputBytes + |text| + width >= old(meter.inputBytes) + |rest| + left
                    && meter.nodes + |text| >= old(meter.nodes) + |rest|
                    && meter.records + |text| >= old(meter.records) + |rest|
        invariant meter.failed && !old(meter.failed) ==>
                    old(meter.inputBytes) < Unit() || old(meter.nodes) < Unit() || old(meter.records) < Unit()
        invariant written ==> |out.pending| <= MAX_ID
        invariant written ==> Parse(Lines(out.ids, out.pending), rest) == Parse(Lines([], ""), text)
        invariant !written && listed ==> meter.failed
        decreases |rest|, written
      {
        hide Parse, ObjectId, Exact, Sized, Feed;
        left := Charge(left);
        var size: nat := *;
        var n := if 1 <= size <= |rest| then size else |rest|;
        FeedThenParse(out.Now(), rest[..n], rest[n..]);
        assert rest[..n] + rest[n..] == rest;
        written := out.Write(rest[..n]);
        rest := rest[n..];
      }
      left := Charge(left);
      if meter.failed {
        return Err(Budget);
      }
      if !listed || !written {
        return Err(Unavailable);
      }
      if out.pending != "" {
        return Err(Unavailable);
      }
      var ids := store.revisions[(base, head)];
      assert [] + ids == ids;
      r := Ok(out.ids);
    }
  }

  lemma {:induction false} PrintIsLonger(ids: seq<Id>)
    ensures |ids| <= |Print(ids)|
  {
    if ids != [] {
      PrintIsLonger(ids[1..]);
    }
  }

  lemma RevisionsAreIds(st: Objects, base: Id, head: Id)
    requires Exact(st) && (base, head) in st.revisions
    ensures forall id :: id in st.revisions[(base, head)] ==> ObjectId(id)
  {
    forall id | id in st.revisions[(base, head)] ensures ObjectId(id) {
      assert id in Commits(st.revisions[(base, head)]);
      var p :| Connects(st.graph, p, head, id);
    }
  }
}
