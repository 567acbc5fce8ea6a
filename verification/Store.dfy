/** The object store as the analysis can observe it: for each read, the answer Git gives or
    the fact that it gives none.  The store does not change during one operation. */
module Store {
  import opened Model
  import opened Graph
  import opened Ordering

  /** One parsed hunk of a zero-context patch. */
  datatype Hunk = Hunk(oldStart: int, oldLines: int, newLines: int, oldNoNewlineAt: int, body: string)

  /** The parsed patch of one path: one hunk list per file section, or a parse failure. */
  datatype Patch = Unparsed | Parsed(files: seq<seq<Hunk>>)

  datatype Objects = Objects(
    graph: Ancestry,
    opens: bool,                            // the private view could be set up
    shallow: seq<string>,                   // entries of the shallow file, none in a full clone
    readable: set<Id>,                      // commits whose objects are physically present
    revisions: map<(Id, Id), seq<Id>>,      // rev-list head ^base
    ancestry: map<(Id, Id), bool>,          // merge-base --is-ancestor
    rawDiffs: map<(Id, Id), string>,        // diff --raw -z
    blobs: map<Id, string>,
    patches: map<(Id, Id, string), Patch>)

  /** A read that succeeds is exact. */
  ghost predicate Exact(st: Objects) {
    && History(st.graph)
    && (forall id :: id in st.readable ==> id in st.graph)
    && (forall base, head :: (base, head) in st.revisions ==>
          && head in st.graph
          && Distinct(st.revisions[(base, head)])
          && Commits(st.revisions[(base, head)]) == Reach(st.graph, head) - Reach(st.graph, base))
    && (forall base, head :: (base, head) in st.ancestry ==>
          (st.ancestry[(base, head)] <==> base in Reach(st.graph, head)))
  }

  function Parents(st: Objects, id: Id): Result<seq<Id>> {
    if id in st.readable && id in st.graph then Ok(st.graph[id]) else Err(Unavailable)
  }

  function Introduced(st: Objects, base: Id, head: Id): Result<seq<Id>> {
    if (base, head) in st.revisions then Ok(st.revisions[(base, head)]) else Err(Unavailable)
  }

  function IsAncestor(st: Objects, base: Id, head: Id): Result<bool> {
    if (base, head) in st.ancestry then Ok(st.ancestry[(base, head)]) else Err(Unavailable)
  }

  function RawDiff(st: Objects, before: Id, after: Id): Result<string> {
    if (before, after) in st.rawDiffs then Ok(st.rawDiffs[(before, after)]) else Err(Unavailable)
  }

  function Blob(st: Objects, id: Id): Result<string> {
    if id in st.blobs then Ok(st.blobs[id]) else Err(Unavailable)
  }

  function PatchOf(st: Objects, before: Id, after: Id, path: string): Result<Patch> {
    if (before, after, path) in st.patches then Ok(st.patches[(before, after, path)]) else Err(Unavailable)
  }
}
