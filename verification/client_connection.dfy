/** clientf/client_connection.cpp as it runs: the request queue and the pending synchronization
    updated in place, each method proved against the step it stands for; and what holds of
    pages and acknowledgements whatever the server sends. */
module ClientConnections {
  import opened Prelude
  import opened Tables
  import opened ClientSync

  // ----- Against any server whatever -----

  /** Nothing stored is ever overwritten, and what was handed over is stored as it came. */
  ghost predicate StoredAll(index: map<int, Entry>, index': map<int, Entry>, records: seq<Delivery>) {
    && (forall id | id in index :: id in index' && index'[id] == index[id])
    && (forall i | 0 <= i < |records| ::
          records[i].message.id in index' && index'[records[i].message.id] == Incoming(records[i]))
  }

  lemma {:induction false} StoreEachStores(index: map<int, Entry>, records: seq<Delivery>)
    requires StoreEach(index, records).1
    ensures StoredAll(index, StoreEach(index, records).0, records)
    decreases |records|
  {
    if records != [] {
      var (index1, r) := StoreOne(index, records[0]);
      StoreEachStores(index1, records[1..]);
      var index2 := StoreEach(index1, records[1..]).0;
      forall i | 0 <= i < |records|
        ensures records[i].message.id in index2 && index2[records[i].message.id] == Incoming(records[i])
      {
        if i > 0 { assert records[1..][i - 1] == records[i]; }
      }
    }
  }

  /** The acknowledgements of a page are queued all together, after every record has been
      stored or found stored, or not at all; and the queue never outgrows its limit. */
  lemma AcksAreAllOrNone(c: Client, p: Frame, handled: nat, interrupted: bool)
    requires p.PendingPage? && |c.queue| <= MAX_AUTOMATIC
    ensures var c' := ReceivePage(c, p, handled, interrupted);
      && |c'.queue| <= MAX_AUTOMATIC
      && (|| c'.queue == c.queue
          || (&& c'.stopped == c.stopped && StoredAll(c.index, c'.index, p.records)
              && (|| (p.hasMore && c'.queue == c.queue + Acks(p.records) + [SyncRequest(p.next, Some(p.through))])
                  || (!p.hasMore && c'.queue == c.queue + Acks(p.records)))))
  {
    hide PageFits, StoreEach;
    var n := if handled < |p.records| then handled else |p.records|;
    assert n == |p.records| ==> p.records[..n] == p.records;
    if n == |p.records| && StoreEach(c.index, p.records).1 {
      StoreEachStores(c.index, p.records);
    }
  }

  // ----- The connection in place -----

  class ClientConnection {
    var authenticated: bool
    var stopped: Option<StopReason>
    var automaticRequests: seq<Frame>
    var pendingSynchronizationActive: bool
    var pendingAfterMessageId: int
    var pendingThroughMessageId: Option<int>
    /** The id index behind the frame handler. */
    var stored: map<int, Entry>
    var awaiting: bool
    var response: Option<Frame>

    function State(): Client
      reads this
    {
      Client(authenticated, stopped, automaticRequests, pendingSynchronizationActive, pendingAfterMessageId,
             pendingThroughMessageId, stored, awaiting, response)
    }

    constructor ()
      ensures State() == NEW_CLIENT
    {
      authenticated, stopped, automaticRequests, pendingSynchronizationActive := false, None, [], false;
      pendingAfterMessageId, pendingThroughMessageId, stored, awaiting, response := 0, None, map[], false, None;
    }

    /** The first reason is kept. */
    method RequestStop(reason: StopReason)
      modifies this`stopped
      ensures State() == Stop(old(State()), reason)
    {
      if stopped.None? {
        stopped := Some(reason);
      }
    }

    method StartPendingSynchronization() returns (queued: bool)
      modifies this
      ensures State() == StartSync(old(State()))
      ensures queued <==> |automaticRequests| == |old(automaticRequests)| + 1
    {
      if pendingSynchronizationActive {
        return false;
      }
      if |automaticRequests| >= MAX_AUTOMATIC {
        RequestStop(QueueOverflow);
        return false;
      }
      pendingSynchronizationActive := true;
      pendingAfterMessageId := 0;
      pendingThroughMessageId := None;
      automaticRequests := automaticRequests + [SyncRequest(0, None)];
      return true;
    }

    /** Sends queued requests in order, at most `most`; `writes` is how many writes succeed.
        No request is sent twice or out of order; one may be lost with a failing write. */
    method FlushAutomaticRequests(most: nat, writes: nat) returns (ok: bool, sent: seq<Frame>, lost: seq<Frame>)
      modifies this`automaticRequests, this`stopped
      ensures old(automaticRequests) == sent + lost + automaticRequests
      ensures |sent| <= most && |sent| <= writes && |lost| <= 1
      ensures lost != [] ==> stopped.Some?
      ensures ok ==> stopped == None && (|sent| == most || automaticRequests == [])
      ensures lost == [] ==> stopped == old(stopped)
    {
      sent, lost := [], [];
      while stopped.None? && |sent| < most
        invariant old(automaticRequests) == sent + automaticRequests
        invariant |sent| <= most && |sent| <= writes && stopped == old(stopped)
        decreases most - |sent|
      {
        if automaticRequests == [] {
          return true, sent, lost;
        }
        var request := automaticRequests[0];
        automaticRequests := automaticRequests[1..];
        if |sent| >= writes {
          RequestStop(Stopped);
          return false, sent, [request];
        }
        sent := sent + [request];
      }
      ok := stopped.None?;
    }

    /** The tests of a page before any record is handed over. */
    method ValidatePage(p: Frame) returns (valid: bool)
      requires p.PendingPage?
      ensures valid == PageFits(State(), p)
    {
      hide WellFormed;
      if !pendingSynchronizationActive || p.through < 0 || p.next < 0 {
        return false;
      }
      if (pendingThroughMessageId.Some? && pendingThroughMessageId.value != p.through) || pendingAfterMessageId > p.through {
        return false;
      }
      var previousId := pendingAfterMessageId;
      var i := 0;
      assert p.records[0..] == p.records;
      while i < |p.records|
        invariant i <= |p.records| && previousId == Last(p.records[..i], pendingAfterMessageId)
        invariant Ascends(p.records, pendingAfterMessageId, p.through) == Ascends(p.records[i..], previousId, p.through)
      {
        var record := p.records[i];
        assert p.records[i..][0] == record && p.records[i..][1..] == p.records[i + 1..];
        if !WellFormed(record) || record.message.id <= previousId || record.message.id > p.through {
          return false;
        }
        previousId := record.message.id;
        i := i + 1;
      }
      assert p.records[..i] == p.records;
      return p.next == previousId && (!p.hasMore || p.records != []);
    }

    /** Hands records to the frame handler one by one; it stops the connection at the
        `handled`-th for lack of room, or at a conflict. */
    method HandOver(records: seq<Delivery>, handled: nat)
      modifies this`stored, this`stopped
      ensures var n := if handled < |records| then handled else |records|;
        var (index, ok) := StoreEach(old(stored), records[..n]);
        && stored == index
        && stopped == (if old(stopped).Some? then old(stopped)
                       else if !ok then Some(ConflictingMessage)
                       else if n < |records| then Some(CapacityReached) else None)
      requires stopped.None?
    {
      hide StoreOne;
      ghost var n := if handled < |records| then handled else |records|;
      var i := 0;
      assert records[..n][0..] == records[..n];
      while i < |records| && i < handled
        invariant i <= n && stopped.None?
        invariant StoreEach(old(stored), records[..n]) == StoreEach(stored, records[..n][i..])
      {
        assert records[..n][i..][0] == records[i] && records[..n][i..][1..] == records[..n][i + 1..];
        var (index, result) := StoreOne(stored, records[i]);
        if result == Conflict {
          assert index == stored by { ConflictKeeps(stored, records[i]); }
          RequestStop(ConflictingMessage);
          return;
        }
        stored := index;
        i := i + 1;
      }
      if i < |records| {
        RequestStop(CapacityReached);
      }
    }

    method ProcessPendingPage(p: Frame, handled: nat, interrupted: bool)
      requires p.PendingPage? && stopped.None?
      modifies this
      ensures State() == ReceivePage(old(State()), p, handled, interrupted)
    {
      hide PageFits, StoreEach;
      var valid := ValidatePage(p);
      if !valid {
        RequestStop(SynchronizationFailed);
        return;
      }
      HandOver(p.records, handled);
      if stopped.Some? {
        return;
      }
      if interrupted {
        RequestStop(Stopped);
        return;
      }
      var required := |p.records| + (if p.hasMore then 1 else 0);
      if |automaticRequests| + required > MAX_AUTOMATIC {
        RequestStop(QueueOverflow);
        return;
      }
      QueueAcknowledgements(p.records);
      if p.hasMore {
        automaticRequests := automaticRequests + [SyncRequest(p.next, Some(p.through))];
        pendingAfterMessageId := p.next;
        pendingThroughMessageId := Some(p.through);
      } else {
        pendingSynchronizationActive := false;
        pendingAfterMessageId := 0;
        pendingThroughMessageId := None;
      }
    }

    method QueueAcknowledgements(records: seq<Delivery>)
      modifies this`automaticRequests
      ensures automaticRequests == old(automaticRequests) + Acks(records)
    {
      var i := 0;
      while i < |records|
        invariant i <= |records| && automaticRequests == old(automaticRequests) + Acks(records)[..i]
      {
        automaticRequests := automaticRequests + [DeliveryAck(records[i].message.id)];
        i := i + 1;
      }
      assert Acks(records)[..i] == Acks(records);
    }

    method ProcessDeliveryMessage(d: Delivery, room: bool, interrupted: bool)
      requires stopped.None?
      modifies this
      ensures State() == ReceiveMessage(old(State()), d, room, interrupted)
    {
      hide WellFormed;
      if !WellFormed(d) {
        return;
      }
      var (index, result) := StoreOne(stored, d);
      if result == Conflict {
        RequestStop(ConflictingMessage);
        return;
      }
      if result == StoreResult.Stored && !room {
        RequestStop(CapacityReached);
        return;
      }
      stored := index;
      if interrupted {
        RequestStop(Stopped);
        return;
      }
      if |automaticRequests| >= MAX_AUTOMATIC {
        RequestStop(QueueOverflow);
        return;
      }
      automaticRequests := automaticRequests + [DeliveryAck(d.message.id)];
    }

    method DispatchFrame(f: Frame, handled: nat, interrupted: bool)
      requires stopped.None?
      modifies this
      ensures State() == Dispatch(old(State()), f, handled, interrupted)
    {
      hide ReceivePage, ReceiveMessage;
      if !authenticated {
        match f {
          case AuthSuccess => authenticated := true;
          case AuthFailure => RequestStop(AuthenticationRejected);
          case _ => RequestStop(InvalidAuthentication);
        }
        return;
      }
      match f
      case Message(d) => ProcessDeliveryMessage(d, handled > 0, interrupted);
      case AckOutcome(_, result) =>
        if AckRefused(result) {
          RequestStop(AcknowledgementFailed);
        }
      case PendingPage(_, _, _, _) => ProcessPendingPage(f, handled, interrupted);
      case PendingRefused => RequestStop(SynchronizationRefused);
      case AuthSuccess => RequestStop(AssociationFailed);
      case AuthFailure => RequestStop(AssociationFailed);
      case Accepted(_) => AssociateResponse(f);
      case NotAccepted => AssociateResponse(f);
      case _ =>
    }

    /** The association test of the frame handler for an operation result. */
    method AssociateResponse(f: Frame)
      modifies this`response, this`stopped
      ensures State() == if !old(awaiting) || old(response).Some? then Stop(old(State()), AssociationFailed)
                         else old(State()).(response := Some(f))
    {
      if !awaiting || response.Some? {
        RequestStop(AssociationFailed);
      } else {
        response := Some(f);
      }
    }
  }

  lemma ConflictKeeps(index: map<int, Entry>, d: Delivery)
    requires StoreOne(index, d).1 == Conflict
    ensures StoreOne(index, d).0 == index
  {
  }
}
