/**
 * The lead lifecycle (app/services/lead_service.py): creating a lead,
 * reading and listing leads, and the single PENDING -> REACHED_OUT
 * transition, each success followed by two notifications, prospect first.
 */
module LeadService {
  import opened Common
  import opened LeadModel
  import opened FileService
  import opened EmailService
  import Config

  /** The session's view of the `leads` table: primary key to row. */
  class LeadDb {
    var leads: map<LeadId, Lead>

    constructor ()
      ensures leads == map[]
    {
      leads := map[];
    }

    predicate Valid()
      reads this
    {
      Keyed(leads) && Dated(leads)
    }
  }

  /** Every row is stored under its own id. */
  predicate Keyed(leads: map<LeadId, Lead>) {
    forall id :: id in leads ==> leads[id].id == id
  }

  /** No row was last updated before it was created. */
  predicate Dated(leads: map<LeadId, Lead>) {
    forall id :: id in leads ==> leads[id].createdAt <= leads[id].updatedAt
  }

  /**
   * Every stored resume path names a written file (and every written file,
   * by `Uploads.Valid`, passed the extension check).
   */
  ghost predicate ResumesStored(leads: map<LeadId, Lead>, files: map<string, seq<byte>>) {
    forall id :: id in leads && leads[id].resumePath.Some? ==> leads[id].resumePath.value in files
  }

  const LEAD_NOT_FOUND := HttpError(HTTP_404_NOT_FOUND, "Lead not found")
  const INVALID_TRANSITION := HttpError(HTTP_400_BAD_REQUEST, "Can only transition from PENDING to REACHED_OUT")

  // ----- notifications -----

  const ACK_SUBJECT := "Thank you for your submission"
  const ACK_TAIL := ", we have received your information and will be in touch soon."
  const ALERT_SUBJECT := "New lead submitted"
  const NOTICE_SUBJECT := "An attorney has reached out"
  const NOTICE_TAIL := ", an attorney has reviewed your case and will be in contact shortly."
  const REACHED_ALERT_SUBJECT := "Lead marked as reached out"
  const REACHED_ALERT_TAIL := ") has been marked as REACHED_OUT."

  /** To the prospect, on submission. */
  function SubmissionAck(firstName: string, email: string): (m: Email)
    ensures m.to == email && m.subject == ACK_SUBJECT
    ensures |m.body| > 3 + |firstName| && m.body[..3 + |firstName|] == "Hi " + firstName
  {
    Email(email, ACK_SUBJECT, "Hi " + firstName + ACK_TAIL)
  }

  /** To the first attorney address, on submission. */
  function NewLeadAlert(firstName: string, lastName: string, email: string): (m: Email)
    ensures m.to == Config.ATTORNEY_EMAILS[0] && m.subject == ALERT_SUBJECT
    ensures |m.body| > |email| + 2 && m.body[|m.body| - |email| - 2..] == "(" + email + ")"
  {
    Email(Config.ATTORNEY_EMAILS[0], ALERT_SUBJECT, "New lead: " + firstName + " " + lastName + " (" + email + ")")
  }

  /** To the prospect, once the lead is marked REACHED_OUT. */
  function ReachedOutNotice(lead: Lead): (m: Email)
    ensures m.to == lead.email && m.subject == NOTICE_SUBJECT
    ensures |m.body| > 3 + |lead.firstName| && m.body[..3 + |lead.firstName|] == "Hi " + lead.firstName
  {
    Email(lead.email, NOTICE_SUBJECT, "Hi " + lead.firstName + NOTICE_TAIL)
  }

  /** To the first attorney address, once the lead is marked REACHED_OUT. */
  function ReachedOutAlert(lead: Lead): (m: Email)
    ensures m.to == Config.ATTORNEY_EMAILS[0] && m.subject == REACHED_ALERT_SUBJECT
    ensures var tail := lead.email + REACHED_ALERT_TAIL;
            |m.body| > |tail| && m.body[|m.body| - |tail|..] == tail
  {
    Email(Config.ATTORNEY_EMAILS[0], REACHED_ALERT_SUBJECT,
          "Lead " + lead.firstName + " " + lead.lastName + " (" + lead.email + REACHED_ALERT_TAIL)
  }

  // ----- create_lead -----

  /**
   * `create_lead`. The resume, when given, is saved first; if it is refused
   * nothing is stored and nothing is sent. Otherwise the new PENDING row is
   * inserted and the prospect, then the attorney, is notified.
   * `leadId`, `resumeUuid` and `now` stand for the uuid4 default of the id
   * column, the uuid4 of the stored name and the server clock.
   */
  method CreateLead(db: LeadDb, emailService: LoggingEmailService, uploads: Uploads,
                    firstName: string, lastName: string, email: string, resume: Option<Upload>,
                    leadId: LeadId, resumeUuid: string, now: Timestamp)
    returns (r: Result<Lead>)
    requires db.Valid() && uploads.Valid() && ResumesStored(db.leads, uploads.files)
    requires leadId !in db.leads
    requires IsUuidText(resumeUuid)
    modifies db, emailService, uploads
    ensures db.Valid() && uploads.Valid() && ResumesStored(db.leads, uploads.files)
    ensures r.Ok? <==> ResumeAccepted(resume)
    ensures r.Err? ==> resume.Some? && r.error == CheckResume(resume.value).error
    ensures r.Err? ==> unchanged(db, emailService) && uploads.files == old(uploads.files)
    ensures r.Ok? ==> r.value == NewLead(leadId, firstName, lastName, email, RecordedPath(resume, resumeUuid), now)
    ensures r.Ok? ==> db.leads == old(db.leads)[leadId := r.value]
    ensures r.Ok? ==> uploads.files == Saved(old(uploads.files), resume, resumeUuid)
    ensures r.Ok? ==> emailService.log == old(emailService.log) + [SubmissionAck(firstName, email),
                                                                    NewLeadAlert(firstName, lastName, email)]
  {
    var saved := SaveResumeIfGiven(uploads, resume, resumeUuid);
    if saved.Err? {
      return Err(saved.error);
    }
    var lead := NewLead(leadId, firstName, lastName, email, saved.value, now);
    InsertKeepsInvariants(db.leads, old(uploads.files), uploads.files, lead);
    db.leads := db.leads[leadId := lead];
    SendPair(emailService, SubmissionAck(firstName, email), NewLeadAlert(firstName, lastName, email));
    r := Ok(lead);
  }

  /** A submission either carries no resume or one every upload guard accepts. */
  predicate ResumeAccepted(resume: Option<Upload>) {
    resume.None? || CheckResume(resume.value).Ok?
  }

  /** The resume path recorded on the row of an accepted submission. */
  function RecordedPath(resume: Option<Upload>, uuid: string): Option<string>
    requires ResumeAccepted(resume)
  {
    if resume.None? then None else Some(StoredPath(uuid, CheckResume(resume.value).value))
  }

  /** The uploads directory after an accepted submission. */
  ghost function Saved(files: map<string, seq<byte>>, resume: Option<Upload>, uuid: string): map<string, seq<byte>>
    requires ResumeAccepted(resume)
  {
    if resume.None? then files else files[RecordedPath(resume, uuid).value := resume.value.content]
  }

  /** The `if resume:` step of `create_lead`. */
  method SaveResumeIfGiven(uploads: Uploads, resume: Option<Upload>, uuid: string)
    returns (r: Result<Option<string>>)
    requires IsUuidText(uuid)
    modifies uploads
    ensures r.Ok? <==> ResumeAccepted(resume)
    ensures r.Err? ==> resume.Some? && r.error == CheckResume(resume.value).error && uploads.files == old(uploads.files)
    ensures r.Ok? ==> r.value == RecordedPath(resume, uuid) && uploads.files == Saved(old(uploads.files), resume, uuid)
    ensures old(uploads.Valid()) ==> uploads.Valid()
  {
    if resume.None? {
      return Ok(None);
    }
    var saved := uploads.SaveResume(resume.value, uuid);
    if saved.Err? {
      return Err(saved.error);
    }
    r := Ok(Some(saved.value));
  }

  /** Sends the two notifications of one event, in order. */
  method SendPair(emailService: LoggingEmailService, first: Email, second: Email)
    modifies emailService
    ensures emailService.log == old(emailService.log) + [first, second]
  {
    emailService.SendEmail(first.to, first.subject, first.body);
    emailService.SendEmail(second.to, second.subject, second.body);
  }

  /**
   * Inserting a row under a fresh id, not updated before it was created and
   * with its resume (if any) written, keeps the table invariants.
   */
  lemma InsertKeepsInvariants(leads: map<LeadId, Lead>, files: map<string, seq<byte>>,
                              files': map<string, seq<byte>>, lead: Lead)
    requires Keyed(leads) && Dated(leads) && ResumesStored(leads, files) && files.Keys <= files'.Keys
    requires lead.id !in leads && lead.createdAt <= lead.updatedAt
    requires lead.resumePath.Some? ==> lead.resumePath.value in files'
    ensures Keyed(leads[lead.id := lead]) && Dated(leads[lead.id := lead])
    ensures ResumesStored(leads[lead.id := lead], files')
  {
  }

  // ----- get_lead, list_leads -----

  /** `get_lead`: the row under `leadId`, or 404 "Lead not found". */
  function GetLead(db: LeadDb, leadId: LeadId): (r: Result<Lead>)
    reads db
    ensures r.Ok? <==> leadId in db.leads
    ensures r.Ok? ==> r.value == db.leads[leadId]
    ensures db.Valid() && r.Ok? ==> r.value.id == leadId
    ensures r.Err? ==> r.error == LEAD_NOT_FOUND
  {
    if leadId in db.leads then Ok(db.leads[leadId]) else Err(LEAD_NOT_FOUND)
  }

  /** Every element of `r` is a stored row. */
  predicate RowsOf(leads: map<LeadId, Lead>, r: seq<Lead>) {
    forall i :: 0 <= i < |r| ==> r[i].id in leads && leads[r[i].id] == r[i]
  }

  predicate DistinctIds(r: seq<Lead>) {
    forall i, j :: 0 <= i < j < |r| ==> r[i].id != r[j].id
  }

  /** Every stored row appears in `r`. */
  predicate CoversRows(leads: map<LeadId, Lead>, r: seq<Lead>) {
    forall id :: id in leads ==> exists i :: 0 <= i < |r| && r[i].id == id
  }

  /** `created_at` never increases along `r`. */
  predicate CreatedNonIncreasing(r: seq<Lead>) {
    forall i, j :: 0 <= i < j < |r| ==> r[i].createdAt >= r[j].createdAt
  }

  /**
   * `r` lists every stored row exactly once, newest first (ties in any order):
   * the result of `ORDER BY created_at DESC` on the table.
   */
  predicate IsNewestFirst(leads: map<LeadId, Lead>, r: seq<Lead>) {
    RowsOf(leads, r) && DistinctIds(r) && CoversRows(leads, r) && CreatedNonIncreasing(r)
  }

  predicate IsNewest(leads: map<LeadId, Lead>, id: LeadId)
    requires id in leads
  {
    forall other :: other in leads ==> leads[id].createdAt >= leads[other].createdAt
  }

  /** A non-empty table has a newest row. */
  lemma {:induction false} NewestExists(leads: map<LeadId, Lead>)
    requires leads != map[]
    ensures exists id :: id in leads && IsNewest(leads, id)
    decreases |leads|
  {
    var x :| x in leads;
    var rest := leads - {x};
    assert forall other :: other in leads && other != x ==> other in rest && rest[other] == leads[other];
    if rest == map[] {
      assert IsNewest(leads, x);
    } else {
      assert |rest| < |leads|;
      NewestExists(rest);
      var y :| y in rest && IsNewest(rest, y);
      var w := if leads[y].createdAt >= leads[x].createdAt then y else x;
      forall other | other in leads ensures leads[w].createdAt >= leads[other].createdAt {
        if other != x {
          assert rest[y].createdAt >= rest[other].createdAt;
        }
      }
      assert IsNewest(leads, w);
    }
  }

  /** Putting a newest row in front of a listing of the other rows lists the whole table. */
  lemma PrependNewest(leads: map<LeadId, Lead>, k: LeadId, tail: seq<Lead>)
    requires Keyed(leads) && k in leads && IsNewest(leads, k)
    requires IsNewestFirst(leads - {k}, tail)
    ensures IsNewestFirst(leads, [leads[k]] + tail)
  {
    var rest := leads - {k};
    var r := [leads[k]] + tail;
    assert forall id :: id in leads && id != k ==> id in rest && rest[id] == leads[id];
    assert forall i :: 1 <= i < |r| ==> r[i] == tail[i - 1];
    assert RowsOf(leads, r) by {
      assert RowsOf(rest, tail);
    }
    assert DistinctIds(r) by {
      assert RowsOf(rest, tail) && DistinctIds(tail);
    }
    assert CreatedNonIncreasing(r) by {
      assert RowsOf(rest, tail) && CreatedNonIncreasing(tail);
    }
    assert CoversRows(leads, r) by {
      assert CoversRows(rest, tail);
      forall id | id in leads ensures exists i :: 0 <= i < |r| && r[i].id == id {
        if id == k {
          assert r[0].id == id;
        } else {
          var i :| 0 <= i < |tail| && tail[i].id == id;
          assert r[i + 1].id == id;
        }
      }
    }
  }

  /** One newest-first listing of the table, choosing freely among equal timestamps. */
  ghost function NewestFirst(leads: map<LeadId, Lead>): (r: seq<Lead>)
    requires Keyed(leads)
    ensures IsNewestFirst(leads, r)
    decreases |leads|
  {
    if leads == map[] then []
    else
      NewestExists(leads);
      var k :| k in leads && IsNewest(leads, k);
      var rest := leads - {k};
      assert |rest| < |leads|;
      var tail := NewestFirst(rest);
      PrependNewest(leads, k, tail);
      [leads[k]] + tail
  }

  /**
   * `list_leads`: every stored lead, newest first. Which listing the database
   * returns among equal timestamps is not determined, so the result is chosen
   * among the listings `NewestFirst` shows to exist.
   */
  ghost method ListLeads(db: LeadDb) returns (r: seq<Lead>)
    requires db.Valid()
    ensures IsNewestFirst(db.leads, r)
  {
    var listing := NewestFirst(db.leads);
    r :| IsNewestFirst(db.leads, r);
  }

  /** Distinct rows never share a `created_at` value. */
  predicate DistinctTimestamps(leads: map<LeadId, Lead>) {
    forall a, b :: a in leads && b in leads && a != b ==> leads[a].createdAt != leads[b].createdAt
  }

  /** Dropping the first row of a listing lists the table without that row. */
  lemma DropFirst(leads: map<LeadId, Lead>, r: seq<Lead>)
    requires IsNewestFirst(leads, r) && |r| > 0
    ensures IsNewestFirst(leads - {r[0].id}, r[1..])
  {
    var rest := leads - {r[0].id};
    var t := r[1..];
    assert forall i :: 0 <= i < |t| ==> t[i] == r[i + 1];
    assert RowsOf(rest, t) by {
      forall i | 0 <= i < |t| ensures t[i].id in rest && rest[t[i].id] == t[i] {
        assert r[0].id != r[i + 1].id;
      }
    }
    assert CoversRows(rest, t) by {
      forall id | id in rest ensures exists i :: 0 <= i < |t| && t[i].id == id {
        var j :| 0 <= j < |r| && r[j].id == id;
        assert j != 0;
        assert t[j - 1].id == id;
      }
    }
  }

  /** A listing is empty exactly when the table is. */
  lemma ListingEmptyIff(leads: map<LeadId, Lead>, r: seq<Lead>)
    requires IsNewestFirst(leads, r)
    ensures |r| == 0 <==> leads == map[]
  {
    if |r| > 0 {
      assert r[0].id in leads;
    }
    if leads != map[] {
      var id :| id in leads;
      assert exists i :: 0 <= i < |r| && r[i].id == id;
    }
  }

  /**
   * When no two rows share a timestamp, `ORDER BY created_at DESC` has only
   * one answer: any two newest-first listings are equal.
   */
  lemma {:induction false} NewestFirstUnique(leads: map<LeadId, Lead>, r1: seq<Lead>, r2: seq<Lead>)
    requires DistinctTimestamps(leads)
    requires IsNewestFirst(leads, r1) && IsNewestFirst(leads, r2)
    ensures r1 == r2
    decreases |r1|
  {
    ListingEmptyIff(leads, r1);
    ListingEmptyIff(leads, r2);
    if leads != map[] {
      var a, b := r1[0], r2[0];
      assert a.id == b.id by {
        var i :| 0 <= i < |r1| && r1[i].id == b.id;
        var j :| 0 <= j < |r2| && r2[j].id == a.id;
      }
      DropFirst(leads, r1);
      DropFirst(leads, r2);
      var rest := leads - {a.id};
      assert DistinctTimestamps(rest);
      NewestFirstUnique(rest, r1[1..], r2[1..]);
      assert r1 == [a] + r1[1..] && r2 == [b] + r2[1..];
    }
  }

  // ----- update_lead_state -----

  /** The guard of `update_lead_state`: the only edge is PENDING to REACHED_OUT. */
  predicate CanTransition(current: LeadState, requested: LeadState)
    ensures CanTransition(current, requested) <==> current.Value() == "PENDING" && requested.Value() == "REACHED_OUT"
  {
    current == Pending && requested == ReachedOut
  }

  /** The row after a successful transition: the new state, a refreshed `updated_at`. */
  function MarkedReachedOut(lead: Lead, now: Timestamp): (r: Lead)
    ensures r.state == ReachedOut && r.updatedAt == now
    ensures r.(state := lead.state, updatedAt := lead.updatedAt) == lead
  {
    lead.(state := ReachedOut, updatedAt := now)
  }

  /**
   * `update_lead_state`. A missing id fails with 404 before the guard is
   * looked at; a refused transition fails with 400. Either failure leaves
   * the table and the outbox as they were. On success only `state` (and
   * `updated_at`, by the column's on-update default) change, and the
   * prospect, then the attorney, is notified. `now` is the server clock,
   * which reads no earlier than the moment the row was created.
   */
  method UpdateLeadState(db: LeadDb, emailService: LoggingEmailService, leadId: LeadId,
                         newState: LeadState, now: Timestamp)
    returns (r: Result<Lead>)
    requires db.Valid()
    requires leadId in db.leads ==> db.leads[leadId].createdAt <= now
    modifies db, emailService
    ensures db.Valid()
    ensures leadId !in old(db.leads) ==> r == Err(LEAD_NOT_FOUND)
    ensures leadId in old(db.leads) ==> (r.Ok? <==> CanTransition(old(db.leads)[leadId].state, newState))
    ensures leadId in old(db.leads) && !CanTransition(old(db.leads)[leadId].state, newState) ==>
              r == Err(INVALID_TRANSITION)
    ensures r.Err? ==> unchanged(db, emailService)
    ensures r.Ok? ==> r.value == MarkedReachedOut(old(db.leads)[leadId], now)
    ensures r.Ok? ==> r.value.id == leadId && r.value.state == ReachedOut && r.value.updatedAt == now
    ensures r.Ok? ==> db.leads == old(db.leads)[leadId := r.value]
    ensures r.Ok? ==> emailService.log == old(emailService.log) + [ReachedOutNotice(r.value),
                                                                    ReachedOutAlert(r.value)]
  {
    var found := GetLead(db, leadId);
    if found.Err? {
      return Err(found.error);
    }
    var lead := found.value;
    if !CanTransition(lead.state, newState) {
      return Err(INVALID_TRANSITION);
    }
    lead := MarkedReachedOut(lead, now);
    db.leads := db.leads[leadId := lead];
    SendPair(emailService, ReachedOutNotice(lead), ReachedOutAlert(lead));
    r := Ok(lead);
  }

  /**
   * A transition at a clock reading no earlier than the row's creation keeps
   * the table invariants: ids stay keyed, no row is updated before it was
   * created, resumes stay on disk.
   */
  lemma TransitionKeepsInvariants(leads: map<LeadId, Lead>, files: map<string, seq<byte>>,
                                  leadId: LeadId, now: Timestamp)
    requires Keyed(leads) && Dated(leads) && ResumesStored(leads, files) && leadId in leads
    requires leads[leadId].createdAt <= now
    ensures Keyed(leads[leadId := MarkedReachedOut(leads[leadId], now)])
    ensures Dated(leads[leadId := MarkedReachedOut(leads[leadId], now)])
    ensures ResumesStored(leads[leadId := MarkedReachedOut(leads[leadId], now)], files)
  {
  }

  /**
   * Replays a series of `update_lead_state` requests against one stored lead:
   * the final state and how many of the requests succeeded.
   */
  function Replay(state: LeadState, requests: seq<LeadState>): (LeadState, nat)
    decreases |requests|
  {
    if requests == [] then (state, 0)
    else if CanTransition(state, requests[0]) then
      var (final, n) := Replay(ReachedOut, requests[1..]);
      (final, n + 1)
    else Replay(state, requests[1..])
  }

  /**
   * Over any series of requests at most one succeeds; once REACHED_OUT, none
   * does and the state stays put; one succeeds exactly when the lead starts
   * PENDING and REACHED_OUT is requested at some point.
   */
  lemma {:induction false} AtMostOneTransition(state: LeadState, requests: seq<LeadState>)
    ensures Replay(state, requests).1 <= 1
    ensures state == ReachedOut ==> Replay(state, requests) == (ReachedOut, 0)
    ensures Replay(state, requests).1 == 1 <==> state == Pending && ReachedOut in requests
    ensures Replay(state, requests).0 == ReachedOut <==> state == ReachedOut || ReachedOut in requests
    decreases |requests|
  {
    if requests != [] {
      var rest := requests[1..];
      assert requests == [requests[0]] + rest;
      AtMostOneTransition(ReachedOut, rest);
      AtMostOneTransition(state, rest);
    }
  }

  /** Adds `n` earlier successes to a replay's count. */
  function Shift(outcome: (LeadState, nat), n: nat): (LeadState, nat) {
    (outcome.0, outcome.1 + n)
  }

  /**
   * Replaying from the i-th request is one guarded step followed by the
   * rest: the step moves to `next` and counts one success exactly when the
   * guard lets it through.
   */
  lemma ReplayStep(state: LeadState, requests: seq<LeadState>, i: nat, n: nat, ok: bool, next: LeadState)
    requires i < |requests|
    requires ok <==> CanTransition(state, requests[i])
    requires next == if ok then ReachedOut else state
    ensures Shift(Replay(state, requests[i..]), n) == Shift(Replay(next, requests[i + 1..]), if ok then n + 1 else n)
  {
    assert requests[i..][1..] == requests[i + 1..];
  }

  /** One `update_lead_state` call on a stored lead, seen only through whether it succeeded. */
  method RequestOnce(db: LeadDb, emailService: LoggingEmailService, leadId: LeadId,
                     requested: LeadState, now: Timestamp)
    returns (ok: bool)
    requires db.Valid() && leadId in db.leads && db.leads[leadId].createdAt <= now
    modifies db, emailService
    ensures db.Valid() && leadId in db.leads && db.leads[leadId].createdAt == old(db.leads[leadId].createdAt)
    ensures ok <==> CanTransition(old(db.leads[leadId].state), requested)
    ensures db.leads[leadId].state == if ok then ReachedOut else old(db.leads[leadId].state)
    ensures |emailService.log| == |old(emailService.log)| + if ok then 2 else 0
    ensures db.leads.Keys == old(db.leads.Keys)
    ensures forall k :: k in old(db.leads) && k != leadId ==> db.leads[k] == old(db.leads[k])
  {
    var r := UpdateLeadState(db, emailService, leadId, requested, now);
    ok := r.Ok?;
  }

  /**
   * Sends each requested state of `requests` to `update_lead_state` for one
   * stored lead, in order. The lead ends in the state `Replay` predicts and as
   * many calls succeed as it counts, so by `AtMostOneTransition` at most one
   * does; every success notifies twice, and no other row changes.
   */
  method UpdateRepeatedly(db: LeadDb, emailService: LoggingEmailService, leadId: LeadId,
                          requests: seq<LeadState>, now: Timestamp)
    returns (successes: nat)
    requires db.Valid() && leadId in db.leads && db.leads[leadId].createdAt <= now
    modifies db, emailService
    ensures db.Valid() && leadId in db.leads && db.leads[leadId].createdAt == old(db.leads[leadId].createdAt)
    ensures (db.leads[leadId].state, successes) == Replay(old(db.leads[leadId].state), requests)
    ensures successes <= 1
    ensures |emailService.log| == |old(emailService.log)| + 2 * successes
    ensures db.leads.Keys == old(db.leads.Keys)
    ensures forall k :: k in old(db.leads) && k != leadId ==> db.leads[k] == old(db.leads[k])
  {
    ghost var start := db.leads[leadId].state;
    AtMostOneTransition(start, requests);
    successes := 0;
    for i := 0 to |requests|
      invariant db.Valid() && leadId in db.leads && db.leads[leadId].createdAt == old(db.leads[leadId].createdAt)
      invariant db.leads.Keys == old(db.leads.Keys)
      invariant forall k :: k in old(db.leads) && k != leadId ==> db.leads[k] == old(db.leads[k])
      invariant Replay(start, requests) == Shift(Replay(db.leads[leadId].state, requests[i..]), successes)
      invariant |emailService.log| == |old(emailService.log)| + 2 * successes
    {
      ghost var before := db.leads[leadId].state;
      var ok := RequestOnce(db, emailService, leadId, requests[i], now);
      ReplayStep(before, requests, i, successes, ok, db.leads[leadId].state);
      if ok {
        successes := successes + 1;
      }
    }
    assert requests[|requests|..] == [];
  }

  /**
   * Two PENDING-to-REACHED_OUT requests in a row on a PENDING lead: the first
   * succeeds, the second is refused with 400, the state stays REACHED_OUT and
   * exactly two notifications are sent.
   */
  method ReachOutTwice(db: LeadDb, emailService: LoggingEmailService, leadId: LeadId,
                       now1: Timestamp, now2: Timestamp)
    returns (first: Result<Lead>, second: Result<Lead>)
    requires db.Valid() && leadId in db.leads && db.leads[leadId].state == Pending
    requires db.leads[leadId].createdAt <= now1 && db.leads[leadId].createdAt <= now2
    modifies db, emailService
    ensures first.Ok? && first.value.state == ReachedOut
    ensures second == Err(INVALID_TRANSITION)
    ensures db.leads == old(db.leads)[leadId := first.value]
    ensures emailService.log == old(emailService.log) + [ReachedOutNotice(first.value),
                                                          ReachedOutAlert(first.value)]
  {
    first := UpdateLeadState(db, emailService, leadId, ReachedOut, now1);
    second := UpdateLeadState(db, emailService, leadId, ReachedOut, now2);
  }
}
