/** The values that the landing analysis takes and returns. */
module Model {

  type Id = string

  /** Why a Git read failed, as the program's error values tell the cases apart. */
  datatype ReadError = Budget | Shallow | Unavailable | Correspondence | Edits

  datatype Option<+T> = None | Some(value: T) {
    function GetOr(default: T): T {
      if Some? then value else default
    }
  }

  datatype Result<+T> = Ok(value: T) | Err(error: ReadError)

  datatype Repository = Repository(provider: string, host: string, id: string)

  datatype Bounds = Bounds(repository: Repository, base: Id, head: Id, fromRoot: bool)

  /** Blocks the first-parent commits after `before` up to and including `through`. */
  datatype Span = Span(before: Id, through: Id)

  datatype Gap = Gap(candidateId: string, objectId: Id, reason: string, span: Span)

  datatype Query = Query(bounds: Bounds, commits: seq<Id>, complete: bool, gaps: seq<Gap>)

  /** A prepared interval: the query plus the private first-parent spine, oldest first. */
  datatype Interval = Interval(query: Query, spine: seq<Id>)

  datatype Limits = Limits(records: int, nodes: int, inputBytes: int, outputBytes: int)

  datatype Inventory = Inventory(supported: bool, complete: bool, reason: string, nextCommit: Id, nextPage: string)

  datatype Capabilities = Capabilities(merge: bool, squash: bool, rebase: bool, fastForward: bool,
                                       singleParentCorrespondence: bool)

  datatype Method = Unstated | Merge | Squash | Rebase | FastForward | Unknown(text: string)

  datatype Candidate = Candidate(repository: Repository, id: string, terminal: Id, sourceHead: Id,
                                 source: seq<Id>, sourceComplete: bool,
                                 how: Method, methodEvidence: string, terminalEvidence: string)

  datatype Evidence = Evidence(query: Query, inventory: Inventory, capabilities: Capabilities,
                               candidates: seq<Candidate>)

  datatype Landing = Landing(candidateId: string, before: Id, terminal: Id, proofs: seq<string>,
                             spine: seq<Id>, source: seq<Id>, introduced: seq<Id>)

  datatype Coverage = Coverage(bounds: Bounds, inventory: Inventory, complete: bool,
                               certifiedHead: Id, gaps: seq<Gap>)

  datatype Integrated = Integrated(candidateId: string, throughCandidateId: string)

  datatype DirectPush = DirectPush(before: Id, terminal: Id, introduced: seq<Id>)

  datatype Report = Report(landings: seq<Landing>, integrated: seq<Integrated>,
                           directPushes: seq<DirectPush>, unattributed: seq<Id>, coverage: Coverage)

  /** What a proof returns: a landing, unless the gap names a reason. */
  datatype Verdict = Verdict(landing: Landing, gap: Gap)

  const NO_SPAN := Span("", "")
  const NO_GAP := Gap("", "", "", NO_SPAN)
  const NO_LANDING := Landing("", "", "", [], [], [], [])

  const BUDGET_EXHAUSTED := "input_budget_exhausted"
  const CONFLICT := "candidate_conflict"

  /** `objectID`: a full lower-case hexadecimal SHA-1 or SHA-256 name. */
  predicate ObjectId(id: string) {
    (|id| == 40 || |id| == 64) && forall c :: c in id ==> '0' <= c <= '9' || 'a' <= c <= 'f'
  }

  function GraphReason(e: ReadError): (reason: string)
    ensures reason != ""
    ensures e == Budget <==> reason == BUDGET_EXHAUSTED
    ensures e == ReadError.Shallow <==> reason == "shallow_boundary"
    ensures e != Budget && e != ReadError.Shallow <==> reason == "objects_unavailable"
  {
    match e
    case Budget => BUDGET_EXHAUSTED
    case Shallow => "shallow_boundary"
    case _ => "objects_unavailable"
  }

  function EditReason(e: ReadError): (reason: string)
    ensures reason != ""
    ensures e == Budget <==> reason == BUDGET_EXHAUSTED
    ensures e == Edits <==> reason == "edits_unavailable"
    ensures e != Edits ==> reason == GraphReason(e)
  {
    if e == Edits then "edits_unavailable" else GraphReason(e)
  }

  function FullSpan(p: Interval): Span {
    Span(p.query.bounds.base, p.query.bounds.head)
  }

  /** `slices.Index`. */
  function Position(s: seq<Id>, id: Id): (i: int)
    ensures -1 <= i < |s|
    ensures i < 0 <==> id !in s
    ensures i >= 0 ==> s[i] == id && id !in s[..i]
  {
    if s == [] then -1
    else if s[0] == id then 0
    else
      var i := Position(s[1..], id);
      if i < 0 then -1
      else
        assert s[..i + 1] == [s[0]] + s[1..][..i];
        i + 1
  }
}
