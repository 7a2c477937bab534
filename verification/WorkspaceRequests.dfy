/** The batch of requests behind `ext_workspace_manager_v1.commit`, copied out of wlroots' list. */
module WorkspaceRequests {
  import opened Wrappers
  import opened WlList

  type Id = n: nat | 0 < n witness 1

  // An entry of wlroots' list: the discriminant and the union fields the crate reads.  0 is NULL.
  datatype RawRequest = RawRequest(kind: nat, name: Option<string>, workspace: nat, group: nat)

  const CREATE_WORKSPACE := 0
  const ACTIVATE := 1
  const DEACTIVATE := 2
  const ASSIGN := 3
  const REMOVE := 4

  datatype StaleKind = StaleActivate | StaleDeactivate | StaleAssign | StaleRemove | Unknown(raw: nat)

  datatype Request =
    | CreateWorkspace(name: Option<string>, group: Option<Id>)
    | Activate(workspace: Id)
    | Deactivate(workspace: Id)
    | Assign(workspace: Id, group: Option<Id>)
    | Remove(workspace: Id)
    | Stale(kind: StaleKind, known: Option<Id>, group: Option<Id>)

  function NonNull(raw: nat): Option<Id> {
    if raw == 0 then None else Some(raw)
  }

  function StaleOrLive(raw: nat, kind: StaleKind, live: Id -> Request): Request {
    match NonNull(raw)
    case Some(id) => live(id)
    case None => Stale(kind, None, None)
  }

  // What each delivered request says about the entry it came from.
  function KindOf(r: Request): nat {
    match r
    case CreateWorkspace(_, _) => CREATE_WORKSPACE
    case Activate(_) => ACTIVATE
    case Deactivate(_) => DEACTIVATE
    case Assign(_, _) => ASSIGN
    case Remove(_) => REMOVE
    case Stale(StaleActivate, _, _) => ACTIVATE
    case Stale(StaleDeactivate, _, _) => DEACTIVATE
    case Stale(StaleAssign, _, _) => ASSIGN
    case Stale(StaleRemove, _, _) => REMOVE
    case Stale(Unknown(raw), _, _) => raw
  }

  function WorkspaceOf(r: Request): Option<Id> {
    match r
    case CreateWorkspace(_, _) => None
    case Stale(_, known, _) => known
    case _ => Some(r.workspace)
  }

  function GroupOf(r: Request): Option<Id> {
    match r
    case CreateWorkspace(_, group) => group
    case Assign(_, group) => group
    case Stale(_, _, group) => group
    case _ => None
  }

  /** `r` preserves the entry `raw`: its discriminant, the workspace of a workspace request, the group of a
      create or assign, and the name of a create.  It is stale exactly when the entry names no workspace
      although its kind needs one, or when its kind is unknown. */
  predicate Preserves(raw: RawRequest, r: Request) {
    && KindOf(r) == raw.kind
    && WorkspaceOf(r) == (if ACTIVATE <= raw.kind <= REMOVE then NonNull(raw.workspace) else None)
    && GroupOf(r) == (if raw.kind == CREATE_WORKSPACE || raw.kind == ASSIGN then NonNull(raw.group) else None)
    && (r.CreateWorkspace? ==> r.name == raw.name)
    && (r.Stale? <==> raw.kind > REMOVE || (raw.kind != CREATE_WORKSPACE && raw.workspace == 0))
    && (r.Stale? ==> (r.kind.Unknown? <==> raw.kind > REMOVE))
  }

  // The relation leaves no freedom: an entry has one faithful copy.
  lemma PreservesIsFunctional(raw: RawRequest, r: Request, s: Request)
    requires Preserves(raw, r) && Preserves(raw, s)
    ensures r == s
  {
    if r.Stale? {
      assert s.Stale? && r.kind == s.kind;
    }
  }

  // What an entry of each kind is copied as; the kinds are numbered as in the protocol's enumeration.
  ghost function Copied(raw: RawRequest): Request {
    var workspace, group := raw.workspace, NonNull(raw.group);
    if raw.kind == 0 then CreateWorkspace(raw.name, group)
    else if raw.kind == 1 then if workspace == 0 then Stale(StaleActivate, None, None) else Activate(workspace)
    else if raw.kind == 2 then if workspace == 0 then Stale(StaleDeactivate, None, None) else Deactivate(workspace)
    else if raw.kind == 3 then if workspace == 0 then Stale(StaleAssign, None, group) else Assign(workspace, group)
    else if raw.kind == 4 then if workspace == 0 then Stale(StaleRemove, None, None) else Remove(workspace)
    else Stale(Unknown(raw.kind), None, None)
  }

  /** The description and the table of kinds say the same. */
  lemma PreservesIff(raw: RawRequest, r: Request)
    ensures Preserves(raw, r) <==> r == Copied(raw)
  {
    assert Preserves(raw, Copied(raw));
    if Preserves(raw, r) {
      PreservesIsFunctional(raw, r, Copied(raw));
    }
  }

  /** `collect_requests`: one request per list node, in list order.  A null head is an empty batch. */
  method CollectRequests(head: Link?<RawRequest>, ghost xs: seq<Link<RawRequest>>) returns (requests: seq<Request>)
    requires if head == null then xs == [] else Circle(head, xs)
    ensures |requests| == |xs|
    ensures forall i :: 0 <= i < |xs| ==> Preserves(xs[i].item, requests[i])
  {
    requests := [];
    if head == null {
      return;
    }
    var it := new Iter(head, xs);
    while true
      invariant fresh(it) && it.Valid() && it.original == xs && |requests| == it.pos
      invariant forall i :: 0 <= i < it.pos ==> Preserves(xs[i].item, requests[i])
      decreases |xs| - it.pos
    {
      var link := it.Next();
      if link == None {
        return;
      }
      var raw := link.value.item;
      var r: Request;
      if raw.kind == CREATE_WORKSPACE {
        r := CreateWorkspace(raw.name, NonNull(raw.group));
      } else if raw.kind == ACTIVATE {
        r := StaleOrLive(raw.workspace, StaleActivate, (id: Id) => Activate(id));
      } else if raw.kind == DEACTIVATE {
        r := StaleOrLive(raw.workspace, StaleDeactivate, (id: Id) => Deactivate(id));
      } else if raw.kind == ASSIGN {
        match NonNull(raw.workspace) {
          case Some(workspace) => r := Assign(workspace, NonNull(raw.group));
          case None => r := Stale(StaleAssign, None, NonNull(raw.group));
        }
      } else if raw.kind == REMOVE {
        r := StaleOrLive(raw.workspace, StaleRemove, (id: Id) => Remove(id));
      } else {
        r := Stale(Unknown(raw.kind), None, None);
      }
      requests := requests + [r];
    }
  }
}
