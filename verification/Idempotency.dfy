/** Idempotency keys. One row of the key table is shared by all requests with the same user, method, path and key;
    the middleware claims it, runs the handler, and stores the response or releases the key. */
module Idempotency {
  import opened Basics

  datatype ContentType = Blank | Json | PlainText | OtherType

  datatype Response = Response(status: int, contentType: ContentType, body: string)

  /** idempotency_keys: the row of one (user, method, path, key); no response while the claimant is at work. */
  datatype KeyRow = KeyRow(hash: string, created: int, response: Option<Response>)

  datatype Reply =
    | Ran(response: Response)   // this request ran the handler
    | Replayed(status: int, body: string)
    | ReplayFailed              // 500: stored content type not allowed
    | InProgress | HashConflict | AlreadyUsed // 409s
    | Dropped                   // the connection died before an answer

  const BAD_REQUEST := 400

  /** resolveDuplicate and writeStoredIdempotencyResponse: what a duplicate is told. */
  function Resolve(row: Option<KeyRow>, hash: string): Reply {
    if row.None? then AlreadyUsed
    else if row.value.hash != hash then HashConflict
    else if row.value.response.None? then InProgress
    else
      var stored := row.value.response.value;
      if stored.contentType.OtherType? then ReplayFailed else Replayed(stored.status, stored.body)
  }

  /** What a duplicate with this hash is to be told when the key's row is there: that the key belongs to another
      request, that the first is still at work, or the answer of the first unless its type may not be replayed. */
  ghost predicate AnswersDuplicate(reply: Reply, row: KeyRow, hash: string) {
    && (reply == HashConflict <==> hash != row.hash)
    && (reply == InProgress <==> hash == row.hash && row.response == None)
    && (hash == row.hash && row.response.Some? ==>
          var stored := row.response.value;
          if stored.contentType == OtherType then reply == ReplayFailed
          else reply == Replayed(stored.status, stored.body))
  }

  /** DeleteOlderThan, as it affects one key. */
  function KeptRow(row: Option<KeyRow>, cutoff: int): Option<KeyRow> {
    if row.Some? && row.value.created < cutoff then None else row
  }

  /** StoreResponse: an UPDATE, so a missing row stays missing. */
  function StoreResponse(row: Option<KeyRow>, response: Response): Option<KeyRow> {
    if row.None? then None else Some(row.value.(response := Some(response)))
  }

  // ----- recording what the handler writes -----

  /** What a handler does with its response writer. */
  datatype HandlerWrite = SetContentType(contentType: ContentType) | WriteHeader(status: int) | Write(data: string)

  /** What the middleware stores: the recorder's last status and all of the body, and the content type the header map
      has when the handler returns. */
  function Recorded(output: seq<HandlerWrite>): Response {
    if output == [] then Response(200, Blank, "")
    else
      var before, last := Recorded(output[..|output| - 1]), output[|output| - 1];
      match last
      case SetContentType(contentType) => before.(contentType := contentType)
      case WriteHeader(status) => before.(status := status)
      case Write(data) => before.(body := before.body + data)
  }

  predicate Sends(w: HandlerWrite) { !w.SetContentType? }

  /** The header goes out with the first call that sends; net/http ignores what is set after that. */
  predicate HeaderSent(output: seq<HandlerWrite>) {
    exists i :: 0 <= i < |output| && Sends(output[i])
  }

  /** What the client gets. */
  function Sent(output: seq<HandlerWrite>): Response {
    if output == [] then Response(200, Blank, "")
    else
      var front, last := output[..|output| - 1], output[|output| - 1];
      var before := Sent(front);
      match last
      case SetContentType(contentType) => if HeaderSent(front) then before else before.(contentType := contentType)
      case WriteHeader(status) => if HeaderSent(front) then before else before.(status := status)
      case Write(data) => before.(body := before.body + data)
  }

  class Recorder {
    var statusCode: int
    var contentType: ContentType
    var body: string

    ghost function Contents(): Response
      reads this
    {
      Response(statusCode, contentType, body)
    }

    constructor ()
      ensures Contents() == Recorded([])
    {
      statusCode, contentType, body := 200, Blank, "";
    }

    method SetContentType(contentType: ContentType)
      modifies this
      ensures Contents() == old(Contents()).(contentType := contentType)
    {
      this.contentType := contentType;
    }

    method WriteHeader(status: int)
      modifies this
      ensures Contents() == old(Contents()).(status := status)
    {
      statusCode := status;
    }

    method Write(data: string)
      modifies this
      ensures Contents() == old(Contents()).(body := old(body) + data)
    {
      body := body + data;
    }
  }

  /** The last status written after the header went out. */
  function LateStatus(output: seq<HandlerWrite>): Option<int> {
    if output == [] then None
    else
      var front, last := output[..|output| - 1], output[|output| - 1];
      if last.WriteHeader? && HeaderSent(front) then Some(last.status) else LateStatus(front)
  }

  /** The last content type set after the header went out. */
  function LateType(output: seq<HandlerWrite>): Option<ContentType> {
    if output == [] then None
    else
      var front, last := output[..|output| - 1], output[|output| - 1];
      if last.SetContentType? && HeaderSent(front) then Some(last.contentType) else LateType(front)
  }

  function Or<T>(late: Option<T>, sent: T): T {
    if late.Some? then late.value else sent
  }

  /** What the middleware stores, of any handler: the body as sent, under the late status and content type if there
      are. */
  lemma {:induction false} RecordedIsLateOrSent(output: seq<HandlerWrite>)
    ensures var sent := Sent(output);
            Recorded(output)
              == Response(Or(LateStatus(output), sent.status), Or(LateType(output), sent.contentType), sent.body)
    ensures !HeaderSent(output) ==> LateStatus(output).None? && LateType(output).None?
  {
    if output != [] {
      var front := output[..|output| - 1];
      RecordedIsLateOrSent(front);
      if HeaderSent(front) {
        var i :| 0 <= i < |front| && Sends(front[i]);
        assert Sends(output[i]);
      }
    }
  }

  /** It is what the client got exactly when what is set last after the header went out, if anything, repeats what was
      sent. */
  lemma RecordedIsSentIff(output: seq<HandlerWrite>)
    ensures Recorded(output) == Sent(output)
       <==> && (LateStatus(output).Some? ==> LateStatus(output).value == Sent(output).status)
            && (LateType(output).Some? ==> LateType(output).value == Sent(output).contentType)
  {
    RecordedIsLateOrSent(output);
  }

  /** The middleware keeps the key's row for a handler exactly when the status it recorded is below 400; that is the
      sent status unless a late one is on the other side. */
  lemma KeptAsSentIff(output: seq<HandlerWrite>)
    ensures (Recorded(output).status < BAD_REQUEST <==> Sent(output).status < BAD_REQUEST)
       <==> (LateStatus(output).Some? ==>
               (LateStatus(output).value < BAD_REQUEST <==> Sent(output).status < BAD_REQUEST))
  {
    RecordedIsLateOrSent(output);
  }

  /** Nothing of the header is touched once it went out. */
  predicate HeaderFirst(output: seq<HandlerWrite>) {
    forall i, j :: 0 <= i < j < |output| && Sends(output[i]) ==> output[j].Write?
  }

  lemma {:induction false} NothingIsLate(output: seq<HandlerWrite>)
    requires HeaderFirst(output)
    ensures LateStatus(output).None? && LateType(output).None?
  {
    if output != [] {
      NothingIsLate(output[..|output| - 1]);
    }
  }

  /** So a handler that touches nothing of its header once it went out has exactly what the client got recorded. */
  lemma RecordedIsSent(output: seq<HandlerWrite>)
    requires HeaderFirst(output)
    ensures Recorded(output) == Sent(output)
  {
    NothingIsLate(output);
    RecordedIsSentIff(output);
  }

  /** And whatever was sent, a header written again with another status makes the record differ. */
  lemma LateHeaderIsMisread(output: seq<HandlerWrite>, late: int)
    requires HeaderSent(output) && late != Sent(output).status
    ensures Recorded(output + [WriteHeader(late)]) != Sent(output + [WriteHeader(late)])
  {
    var whole := output + [WriteHeader(late)];
    assert whole[..|whole| - 1] == output;
    RecordedIsSentIff(whole);
  }

  /** The handler writes through the recorder, call by call. */
  method RunHandler(output: seq<HandlerWrite>) returns (response: Response)
    ensures response == Recorded(output)
  {
    var recorder := new Recorder();
    for i := 0 to |output|
      invariant recorder.Contents() == Recorded(output[..i])
    {
      assert output[..i + 1][..i] == output[..i];
      match output[i] {
        case SetContentType(contentType) => recorder.SetContentType(contentType);
        case WriteHeader(status) => recorder.WriteHeader(status);
        case Write(data) => recorder.Write(data);
      }
    }
    assert output[..|output|] == output;
    return Response(recorder.statusCode, recorder.contentType, recorder.body);
  }

  // ----- the table, updated in place -----

  datatype Key = Key(user: int, httpMethod: string, path: string, key: string)

  function RowAt(rows: map<Key, KeyRow>, k: Key): Option<KeyRow> {
    if k in rows then Some(rows[k]) else None
  }

  class KeyTable {
    var rows: map<Key, KeyRow>

    constructor ()
      ensures rows == map[]
    {
      rows := map[];
    }

    /** The INSERT of ClaimKey: false stands for the unique violation. */
    method Insert(k: Key, hash: string, now: int) returns (claimed: bool)
      modifies this
      ensures claimed <==> k !in old(rows)
      ensures rows == if claimed then old(rows)[k := KeyRow(hash, now, None)] else old(rows)
    {
      claimed := k !in rows;
      if claimed {
        rows := rows[k := KeyRow(hash, now, None)];
      }
    }

    /** For every key at once, what the protocol's purge does to one. */
    method DeleteOlderThan(cutoff: int) returns (deleted: int)
      modifies this
      ensures forall k :: k in rows <==> k in old(rows) && cutoff <= old(rows)[k].created
      ensures forall k :: k in rows ==> rows[k] == old(rows)[k]
      ensures forall k :: RowAt(rows, k) == KeptRow(RowAt(old(rows), k), cutoff)
      ensures deleted == |old(rows)| - |rows|
    {
      var kept := map k | k in rows && cutoff <= rows[k].created :: rows[k];
      deleted := |rows| - |kept|;
      rows := kept;
    }

    method Store(k: Key, response: Response) returns (updated: bool)
      modifies this
      ensures updated <==> k in old(rows)
      ensures RowAt(rows, k) == StoreResponse(RowAt(old(rows), k), response)
      ensures rows == if updated then old(rows)[k := old(rows)[k].(response := Some(response))] else old(rows)
    {
      updated := k in rows;
      if updated {
        rows := rows[k := rows[k].(response := Some(response))];
      }
    }

    method Release(k: Key)
      modifies this
      ensures rows == old(rows) - {k}
    {
      rows := rows - {k};
    }

    /** The middleware around a handler that writes `output`: claim, then run and store or release, or answer the
        duplicate. A first request is answered by its handler, and below 400 that answer stays in the table, else
        nothing does; a duplicate is told what is there. It ends where the protocol below takes a request that nobody
        interrupts. */
    method Serve(k: Key, hash: string, now: int, output: seq<HandlerWrite>) returns (reply: Reply)
      modifies this
      ensures k !in old(rows) ==>
                && reply == Ran(Recorded(output))
                && rows == if Recorded(output).status < 400
                           then old(rows)[k := KeyRow(hash, now, Some(Recorded(output)))] else old(rows)
      ensures k in old(rows) ==> rows == old(rows) && AnswersDuplicate(reply, old(rows)[k], hash)
      ensures var after := Uninterrupted(State(RowAt(old(rows), k), now, map[], []), hash, Recorded(output));
              after.requests == map[0 := Answered(hash, reply)] && RowAt(rows, k) == after.row
      ensures rows - {k} == old(rows) - {k}
    {
      var claimed := Insert(k, hash, now);
      if !claimed {
        return Resolve(RowAt(rows, k), hash);
      }
      var response := RunHandler(output);
      if response.status >= BAD_REQUEST {
        Release(k);
        assert rows == old(rows);
      } else {
        var _ := Store(k, response);
        assert rows == old(rows)[k := KeyRow(hash, now, Some(response))];
      }
      return Ran(response);
    }
  }

  // ----- the protocol -----

  datatype Phase =
    | Arrived(hash: string)                                   // about to insert
    | Refused(hash: string)                                   // unique violation; about to read the row
    | Executing(hash: string, since: int)                     // claimed; the handler runs
    | Executed(hash: string, since: int, response: Response)  // handler done; about to store or release
    | Answered(hash: string, reply: Reply)

  /** The shared row, the clock, every request's phase, and the responses below 400 produced since the row was last
      purged. */
  datatype State = State(row: Option<KeyRow>, clock: int, requests: map<nat, Phase>, successes: seq<Response>)

  datatype Event =
    | Arrive(p: nat, hash: string)
    | Claim(p: nat)
    | Read(p: nat)
    | Execute(p: nat, response: Response)
    | Settle(p: nat, written: bool) // written: the store or release reached the database
    | Drop(p: nat)                  // the claimant dies; its row stays
    | Tick(now: int)
    | Purge(cutoff: int)            // DeleteOlderThan

  const START := State(None, 0, map[], [])

  predicate Claims(s: State, p: nat) {
    p in s.requests && (s.requests[p].Executing? || s.requests[p].Executed?)
  }

  /** No request has been at work for longer than its lifetime. */
  predicate Prompt(s: State, lifetime: int) {
    forall p :: p in s.requests && Claims(s, p) ==> s.clock <= s.requests[p].since + lifetime
  }

  function Next(s: State, e: Event): State {
    match e
    case Arrive(p, hash) =>
      if p in s.requests then s else s.(requests := s.requests[p := Arrived(hash)])
    case Claim(p) =>
      if p !in s.requests || !s.requests[p].Arrived? then s
      else
        var hash := s.requests[p].hash;
        if s.row.None?
        then s.(row := Some(KeyRow(hash, s.clock, None)), requests := s.requests[p := Executing(hash, s.clock)])
        else s.(requests := s.requests[p := Refused(hash)])
    case Read(p) =>
      if p !in s.requests || !s.requests[p].Refused? then s
      else s.(requests := s.requests[p := Answered(s.requests[p].hash, Resolve(s.row, s.requests[p].hash))])
    case Execute(p, response) =>
      if p !in s.requests || !s.requests[p].Executing? then s
      else
        s.(requests := s.requests[p := Executed(s.requests[p].hash, s.requests[p].since, response)],
           successes := if response.status < BAD_REQUEST then s.successes + [response] else s.successes)
    case Settle(p, written) =>
      if p !in s.requests || !s.requests[p].Executed? then s
      else
        var response := s.requests[p].response;
        s.(requests := s.requests[p := Answered(s.requests[p].hash, Ran(response))],
           row := if !written then s.row
                  else if response.status >= BAD_REQUEST then None
                  else StoreResponse(s.row, response))
    case Drop(p) =>
      if !Claims(s, p) then s else s.(requests := s.requests[p := Answered(s.requests[p].hash, Dropped)])
    case Tick(now) => if s.clock <= now then s.(clock := now) else s
    case Purge(cutoff) =>
      if KeptRow(s.row, cutoff) == s.row then s else s.(row := None, successes := [])
  }

  /** A single request from arrival to answer, with nothing in between. */
  function Uninterrupted(s: State, hash: string, response: Response): State
    requires s.requests == map[]
  {
    var claimed := Next(Next(s, Arrive(0, hash)), Claim(0));
    if claimed.requests[0].Executing?
    then Next(Next(claimed, Execute(0, response)), Settle(0, true))
    else Next(claimed, Read(0))
  }

  function Run(s: State, events: seq<Event>): State {
    if events == [] then s else Next(Run(s, events[..|events| - 1]), events[|events| - 1])
  }

  /** A purge spares what is younger than the retention, and requests at work are younger than that. */
  predicate MayPurge(s: State, e: Event, retention: int) {
    e.Purge? ==> e.cutoff <= s.clock - retention && Prompt(s, retention)
  }

  predicate Retained(s: State, events: seq<Event>, retention: int) {
    events == [] ||
    var front, e := events[..|events| - 1], events[|events| - 1];
    Retained(s, front, retention) && MayPurge(Run(s, front), e, retention)
  }

  /** A claimant owns the unanswered row, and the successes are its own. */
  ghost predicate Owns(s: State, p: nat) {
    Claims(s, p) ==>
      && s.row == Some(KeyRow(s.requests[p].hash, s.requests[p].since, None))
      && s.successes ==
         if s.requests[p].Executed? && s.requests[p].response.status < BAD_REQUEST then [s.requests[p].response] else []
  }

  /** At most one claimant; once it has succeeded nobody else can. */
  ghost predicate Safe(s: State) {
    && (forall p, q :: Claims(s, p) && Claims(s, q) ==> p == q)
    && (forall p :: Owns(s, p))
    && (s.row.None? ==> s.successes == [])
    && |s.successes| <= 1
    && (s.row.Some? && s.row.value.response.Some? ==> s.successes == [s.row.value.response.value])
  }

  lemma NewClaimant(s: State, e: Event, p: nat)
    ensures Claims(Next(s, e), p) ==> Claims(s, p) || (e == Claim(p) && s.row.None?)
    ensures Claims(Next(s, e), p) && Claims(s, p) ==>
              Next(s, e).requests[p] == s.requests[p] || (e.Execute? && e.p == p && s.requests[p].Executing?)
  {
  }

  lemma NextKeepsOwner(s: State, e: Event, retention: int, p: nat)
    requires Safe(s) && MayPurge(s, e, retention)
    ensures Owns(Next(s, e), p)
  {
    NewClaimant(s, e, p);
    assert Owns(s, p);
    if !e.Purge? && !e.Tick? {
      assert Owns(s, e.p);
      assert Claims(s, p) && Claims(s, e.p) ==> p == e.p;
    }
  }

  lemma NextIsSafe(s: State, e: Event, retention: int)
    requires Safe(s) && MayPurge(s, e, retention)
    ensures Safe(Next(s, e))
  {
    forall p ensures Owns(Next(s, e), p) {
      NextKeepsOwner(s, e, retention, p);
    }
    forall p, q | Claims(Next(s, e), p) && Claims(Next(s, e), q) ensures p == q {
      NewClaimant(s, e, p);
      NewClaimant(s, e, q);
      assert Owns(s, p) && Owns(s, q);
    }
    if !e.Purge? && !e.Tick? {
      assert Owns(s, e.p);
    }
  }

  /** Over every interleaving: when purges keep rows for at least as long as any request takes, at most one handler run
      ends below 400 while the row is there. */
  lemma {:induction false} AtMostOneSuccess(events: seq<Event>, retention: int)
    requires Retained(START, events, retention)
    ensures Safe(Run(START, events))
    ensures |Run(START, events).successes| <= 1
  {
    if events != [] {
      AtMostOneSuccess(events[..|events| - 1], retention);
      NextIsSafe(Run(START, events[..|events| - 1]), events[|events| - 1], retention);
    }
  }

  /** No purge of the run reaches back to a row of this age. */
  predicate Young(created: int, events: seq<Event>) {
    forall i :: 0 <= i < |events| && events[i].Purge? ==> events[i].cutoff <= created
  }

  /** A stored response stays until a purge reaches its row, whatever else happens. */
  lemma {:induction false} StoredResponseStays(s: State, events: seq<Event>)
    requires Safe(s) && s.row.Some? && s.row.value.response.Some? && Young(s.row.value.created, events)
    ensures Run(s, events).row == s.row && Safe(Run(s, events))
  {
    if events != [] {
      var front, e := events[..|events| - 1], events[|events| - 1];
      assert forall i :: 0 <= i < |front| ==> front[i] == events[i];
      StoredResponseStays(s, front);
      var before := Run(s, front);
      if e.Purge? {
        assert Next(before, e) == before;
      } else {
        forall p ensures !Claims(before, p) {
          assert Owns(before, p);
        }
        NextIsSafe(before, e, 0);
      }
    }
  }

  lemma {:induction false} StoredIsReplayed(s: State, events: seq<Event>, q: nat)
    requires Safe(s) && s.row.Some? && s.row.value.response.Some? && Young(s.row.value.created, events)
    requires q !in s.requests
    ensures var s' := Run(s, events);
            && s'.successes == s.successes
            && !Claims(s', q)
            && (q in s'.requests && s'.requests[q].Answered? ==>
                  AnswersDuplicate(s'.requests[q].reply, s.row.value, s'.requests[q].hash))
  {
    StoredResponseStays(s, events);
    assert Owns(Run(s, events), q);
    if events != [] {
      var front := events[..|events| - 1];
      assert forall i :: 0 <= i < |front| ==> front[i] == events[i];
      StoredIsReplayed(s, front, q);
      StoredResponseStays(s, front);
    }
  }

  /** A claimant that comes to settle, in any reachable state, has its answer sent; written below 400 the row holds
      exactly that response under the claim it made, written at 400 or above the key is free. */
  lemma SettledIsStoredOrFreed(before: seq<Event>, p: nat, retention: int)
    requires Retained(START, before, retention)
    requires p in Run(START, before).requests && Run(START, before).requests[p].Executed?
    ensures var s := Run(START, before);
            var Executed(hash, since, response) := s.requests[p];
            var after := Next(s, Settle(p, true));
            && after.requests == s.requests[p := Answered(hash, Ran(response))]
            && after.row == (if response.status < 400 then Some(KeyRow(hash, since, Some(response))) else None)
            && Safe(after)
  {
    AtMostOneSuccess(before, retention);
    assert Owns(Run(START, before), p);
    NextIsSafe(Run(START, before), Settle(p, true), retention);
  }

  /** Replay over every run: once a handler's response below 400 has been stored, every request that arrives later,
      however it interleaves with others and until a purge reaches the claim, runs no handler and is answered with that
      status and body (unless the stored type may not be replayed), or with a conflict if its hash differs. */
  lemma LaterRequestsReplay(before: seq<Event>, p: nat, later: seq<Event>, q: nat, retention: int)
    requires Retained(START, before, retention)
    requires var s := Run(START, before);
             && p in s.requests && s.requests[p].Executed? && s.requests[p].response.status < 400
             && Young(s.requests[p].since, later) && q !in s.requests
    ensures var s := Run(START, before);
            var Executed(hash, _, response) := s.requests[p];
            var s' := Run(Next(s, Settle(p, true)), later);
            && !Claims(s', q)
            && (q in s'.requests && s'.requests[q].Answered? ==>
                  s'.requests[q].reply ==
                  if s'.requests[q].hash != hash then HashConflict
                  else if response.contentType == OtherType then ReplayFailed
                  else Replayed(response.status, response.body))
  {
    hide Run, Retained, Next, Safe, Claims;
    SettledIsStoredOrFreed(before, p, retention);
    StoredIsReplayed(Next(Run(START, before), Settle(p, true)), later, q);
  }

  /** What the next request on a key gets: on a free key it claims and runs its handler, whose response it may then
      settle; on a taken key it can always be answered, as the row demands. */
  lemma NextRequestIsServed(s: State, q: nat, hash: string, response: Response)
    requires q !in s.requests
    ensures var claimed := Next(Next(s, Arrive(q, hash)), Claim(q));
            if s.row.None?
            then && claimed.row == Some(KeyRow(hash, s.clock, None))
                 && Next(claimed, Execute(q, response)).requests[q] == Executed(hash, s.clock, response)
                 && Next(claimed, Execute(q, response)).successes
                    == s.successes + (if response.status < 400 then [response] else [])
            else && claimed.row == s.row
                 && Next(claimed, Read(q)).requests[q].Answered?
                 && AnswersDuplicate(Next(claimed, Read(q)).requests[q].reply, s.row.value, hash)
  {
  }

  /** The retention is needed: a purge that reaches the row of a request still at work lets a second request claim the
      key, and both handler runs can succeed. */
  lemma EarlyPurgeRunsTwice(s: State, p: nat, q: nat, cutoff: int, response: Response)
    requires Safe(s) && p in s.requests && s.requests[p].Executing? && s.requests[p].since < cutoff
    requires q !in s.requests && response.status < BAD_REQUEST
    ensures var hash := s.requests[p].hash;
            var s' := Next(Next(Next(Next(Next(s, Purge(cutoff)), Arrive(q, hash)), Claim(q)), Execute(q, response)),
                           Execute(p, response));
            |s'.successes| == 2
  {
    assert Owns(s, p);
  }

  // ----- exactly which retentions are safe -----

  /** In every state of the run, requests at work are no older than their lifetime, and every purge spares what is
      younger than the retention. */
  ghost predicate Timely(events: seq<Event>, retention: int, lifetime: int) {
    && (forall i :: 0 <= i <= |events| ==> Prompt(Run(START, events[..i]), lifetime))
    && (forall i :: 0 <= i < |events| && events[i].Purge? ==>
          events[i].cutoff <= Run(START, events[..i]).clock - retention)
  }

  lemma {:induction false} TimelyIsRetained(events: seq<Event>, retention: int, lifetime: int)
    requires Timely(events, retention, lifetime) && lifetime <= retention
    ensures Retained(START, events, retention)
  {
    if events != [] {
      var n := |events| - 1;
      var front := events[..n];
      assert forall i :: 0 <= i <= n ==> front[..i] == events[..i];
      TimelyIsRetained(front, retention, lifetime);
      assert Prompt(Run(START, events[..n]), lifetime);
    }
  }

  function OvertakenEvent(retention: nat, i: nat): Event {
    if i == 0 then Arrive(0, "")
    else if i == 1 then Claim(0)
    else if i == 2 then Tick(retention + 1)
    else if i == 3 then Purge(1)
    else if i == 4 then Arrive(1, "")
    else if i == 5 then Claim(1)
    else if i == 6 then Execute(0, OK_RESPONSE)
    else Execute(1, OK_RESPONSE)
  }

  /** A request at work for one tick longer than the retention, and a purge and a second request just then. */
  function Overtaken(retention: nat): seq<Event> {
    seq(8, i requires 0 <= i => OvertakenEvent(retention, i))
  }

  lemma Prefixes(events: seq<Event>, i: nat)
    requires i < |events|
    ensures Run(START, events[..i + 1]) == Next(Run(START, events[..i]), events[i])
    ensures Run(START, events[..0]) == START
  {
    assert events[..i + 1][..i] == events[..i];
  }

  const OK_RESPONSE := Response(200, Json, "")

  /** The state of that run after its first i events. */
  function OvertakenAt(retention: nat, i: nat): State {
    var now := retention + 1;
    var mine, theirs := Executing("", 0), Executing("", now);
    if i == 0 then START
    else if i == 1 then State(None, 0, map[0 := Arrived("")], [])
    else if i == 2 then State(Some(KeyRow("", 0, None)), 0, map[0 := mine], [])
    else if i == 3 then State(Some(KeyRow("", 0, None)), now, map[0 := mine], [])
    else if i == 4 then State(None, now, map[0 := mine], [])
    else if i == 5 then State(None, now, map[0 := mine, 1 := Arrived("")], [])
    else
      State(Some(KeyRow("", now, None)), now,
            map[0 := if i == 6 then mine else Executed("", 0, OK_RESPONSE),
                1 := if i <= 7 then theirs else Executed("", now, OK_RESPONSE)],
            if i == 6 then [] else if i == 7 then [OK_RESPONSE] else [OK_RESPONSE, OK_RESPONSE])
  }

  lemma OvertakenStep(retention: nat, i: nat)
    requires i < 8
    ensures Next(OvertakenAt(retention, i), OvertakenEvent(retention, i)) == OvertakenAt(retention, i + 1)
  {
  }

  lemma {:induction false} OvertakenRun(retention: nat, i: nat)
    requires i <= 8
    ensures Run(START, Overtaken(retention)[..i]) == OvertakenAt(retention, i)
  {
    hide Next, OvertakenAt, OvertakenEvent, Overtaken;
    if i > 0 {
      OvertakenRun(retention, i - 1);
      OvertakenLength(retention);
      Prefixes(Overtaken(retention), i - 1);
      OvertakenStep(retention, i - 1);
    } else {
      OvertakenLength(retention);
      Prefixes(Overtaken(retention), 0);
    }
  }

  lemma OvertakenLength(retention: nat)
    ensures |Overtaken(retention)| == 8 && OvertakenAt(retention, 0) == START
    ensures forall i :: 0 <= i < 8 ==> Overtaken(retention)[i] == OvertakenEvent(retention, i)
  {
  }

  lemma OvertakenIsPrompt(retention: nat, lifetime: nat, i: nat)
    requires retention < lifetime && i <= 8
    ensures Prompt(OvertakenAt(retention, i), lifetime) && (i == 3 ==> OvertakenAt(retention, i).clock == retention + 1)
    ensures i == 8 ==> |OvertakenAt(retention, i).successes| == 2
  {
  }

  lemma ShortRetentionFails(retention: nat, lifetime: nat)
    requires retention < lifetime
    ensures Timely(Overtaken(retention), retention, lifetime)
    ensures |Run(START, Overtaken(retention)).successes| == 2
  {
    hide Run, Next, OvertakenAt, Overtaken, Prompt;
    var events := Overtaken(retention);
    OvertakenLength(retention);
    forall i | 0 <= i <= |events| ensures Prompt(Run(START, events[..i]), lifetime) {
      OvertakenRun(retention, i);
      OvertakenIsPrompt(retention, lifetime, i);
    }
    OvertakenRun(retention, 3);
    OvertakenIsPrompt(retention, lifetime, 3);
    OvertakenRun(retention, 8);
    OvertakenIsPrompt(retention, lifetime, 8);
    assert events[..8] == events;
  }

  /** Whatever the interleaving, at most one handler run ends below 400 exactly when rows are retained for at least as
      long as requests can last. */
  lemma AtMostOneSuccessIff(retention: nat, lifetime: nat)
    ensures (forall events :: Timely(events, retention, lifetime) ==> |Run(START, events).successes| <= 1)
       <==> lifetime <= retention
  {
    if lifetime <= retention {
      forall events | Timely(events, retention, lifetime) ensures |Run(START, events).successes| <= 1 {
        TimelyIsRetained(events, retention, lifetime);
        AtMostOneSuccess(events, retention);
      }
    } else {
      ShortRetentionFails(retention, lifetime);
    }
  }
}
