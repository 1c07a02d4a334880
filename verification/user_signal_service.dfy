/**
 * UserSignalService: the PENDING -> RESOLVED lifecycle of user signals
 * (support tickets), their deletion rule, list filters and the action-type check.
 */
module UserSignalService {
  import opened Common
  import opened Model
  import opened Collections

  /** The parts of the signal form the service reads. */
  datatype UserSignalRequest = UserSignalRequest(
    id: SignalId,
    title: string,
    message: string,
    adminResponse: Option<string>)

  /** sendSignal: a new PENDING signal by `user` under the fresh id `id`. */
  function SendSignal(signals: map<SignalId, UserSignal>, id: SignalId, user: User, req: UserSignalRequest)
    : (r: map<SignalId, UserSignal>)
    requires id !in signals
    ensures r.Keys == signals.Keys + {id}
    ensures r[id].status == Pending && r[id].creator == user.id && r[id].id == id
    ensures r[id].title == req.title && r[id].message == req.message && r[id].adminResponse.None?
    ensures forall k :: k in signals ==> r[k] == signals[k]
  {
    signals[id := UserSignal(id, user.id, req.title, req.message, Pending, None)]
  }

  /**
   * closeSignal / closeUserSignal: the signal becomes RESOLVED and stores the
   * admin response. There is no guard on the current status.
   */
  function CloseSignal(signals: map<SignalId, UserSignal>, req: UserSignalRequest)
    : (r: Result<map<SignalId, UserSignal>>)
    ensures r.Ok? <==> req.id in signals
    ensures r.Err? ==> r.error == NotFound
    ensures r.Ok? ==>
      && r.value.Keys == signals.Keys
      && r.value[req.id].status == Resolved
      && r.value[req.id].adminResponse == req.adminResponse
      && r.value[req.id].(status := signals[req.id].status, adminResponse := signals[req.id].adminResponse)
         == signals[req.id]
      && forall k :: k in signals && k != req.id ==> r.value[k] == signals[k]
  {
    if req.id !in signals then Err(NotFound)
    else
      var s := signals[req.id];
      Ok(signals[req.id := s.(status := Resolved, adminResponse := req.adminResponse)])
  }

  /** deleteSignal: only a RESOLVED signal may be deleted. */
  function DeleteSignal(signals: map<SignalId, UserSignal>, req: UserSignalRequest)
    : (r: Result<map<SignalId, UserSignal>>)
    ensures r.Ok? <==> req.id in signals && signals[req.id].status == Resolved
    ensures req.id !in signals ==> r == Err(NotFound)
    ensures req.id in signals && signals[req.id].status != Resolved ==> r == Err(AccessDenied)
    ensures r.Ok? ==> r.value.Keys == signals.Keys - {req.id}
    ensures r.Ok? ==> forall k :: k in r.value ==> r.value[k] == signals[k]
  {
    if req.id !in signals then Err(NotFound)
    else if signals[req.id].status != Resolved then Err(AccessDenied)
    else Ok(map k | k in signals && k != req.id :: signals[k])
  }

  /** A freshly sent signal cannot be deleted; once closed it can. */
  lemma SignalLifecycle(signals: map<SignalId, UserSignal>, user: User, req: UserSignalRequest)
    requires req.id !in signals
    ensures var sent := SendSignal(signals, req.id, user, req);
      && DeleteSignal(sent, req) == Err(AccessDenied)
      && CloseSignal(sent, req).Ok?
      && DeleteSignal(CloseSignal(sent, req).value, req) == Ok(signals)
  {
    var closed := CloseSignal(SendSignal(signals, req.id, user, req), req).value;
    assert DeleteSignal(closed, req).value == signals;
  }

  /** The status filter: a signal is kept when its status name equals `status`; a null status matches nothing. */
  function HasStatus(status: Option<string>): UserSignal -> bool {
    (s: UserSignal) => status == Some(s.status.Name())
  }

  /**
   * getAllSignals: every signal not created by `user`, in list order,
   * restricted to one status unless the filter is "ALL".
   */
  function GetAllSignals(all: seq<UserSignal>, user: User, status: Option<string>): (r: seq<UserSignal>)
    ensures IsSubsequence(r, all)
    ensures forall s :: s in r <==> s in all && s.creator != user.id && (status == Some("ALL") || status == Some(s.status.Name()))
    ensures forall i :: 0 <= i < |r| ==> r[i].creator != user.id
  {
    var others := Filter(all, (s: UserSignal) => s.creator != user.id);
    if status == Some("ALL") then others
    else
      var r := Filter(others, HasStatus(status));
      SubsequenceTransitive(r, others, all);
      r
  }

  /** getUserSignals: the input itself for "ALL", otherwise its signals with that status, in order. */
  function GetUserSignals(signals: seq<UserSignal>, status: Option<string>): (r: seq<UserSignal>)
    ensures status == Some("ALL") ==> r == signals
    ensures IsSubsequence(r, signals)
    ensures forall s :: s in r <==> s in signals && (status == Some("ALL") || status == Some(s.status.Name()))
  {
    if status == Some("ALL") then
      SubsequenceReflexive(signals);
      signals
    else Filter(signals, HasStatus(status))
  }

  /** Every signal is either PENDING or RESOLVED, so the two filtered lists partition the input. */
  lemma {:induction false} StatusFiltersPartition(signals: seq<UserSignal>)
    ensures |GetUserSignals(signals, Some("PENDING"))| + |GetUserSignals(signals, Some("RESOLVED"))| == |signals|
    decreases |signals|
  {
    if |signals| > 0 {
      StatusFiltersPartition(signals[1..]);
    }
  }

  /** validateActionType: exactly "send", "close" and "delete" are accepted; null is a null reference. */
  function ValidateActionType(actionType: Option<string>): (r: Outcome)
    ensures r == Pass <==> actionType.Some? && actionType.value in {"send", "close", "delete"}
    ensures actionType.None? ==> r == Fail(NullReference)
    ensures actionType.Some? && r.Fail? ==> r.error == Domain
  {
    match actionType
    case None => Fail(NullReference)
    case Some(a) => if a == "send" || a == "close" || a == "delete" then Pass else Fail(Domain)
  }
}
