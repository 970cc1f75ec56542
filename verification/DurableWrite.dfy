/** Durable writes: one event, several attempts, keepers that may not answer.

    An attempt carries what the client sees and, beside it, what really happened at the keeper; the
    results say what a returned code entitles the caller to believe about the latter. */
module DurableWrite {
  import opened Text

  const CL_SUCCESS := 0
  const CL_ERR_UNKNOWN := -1
  const CL_ERR_INVALID_ARG := -2
  const CL_ERR_NO_KEEPERS := -7
  const CL_ERR_DURABILITY_UNAVAILABLE := -19
  const CL_ERR_DURABILITY_FULL := -20
  const CL_ERR_DURABILITY_UNKNOWN := -21

  /** How the record_event_durable RPC ends. */
  datatype Rpc = Answer(code: int) | Timeout | NoMatch | OtherError

  /** `alive`: the keeper would answer the liveness probe now. `stored`: this attempt stored the
      event. `pending`: its request is still out and may yet store it. */
  datatype Attempt = Attempt(rpc: Rpc, alive: bool, stored: bool, pending: bool)

  datatype Outcome = Answered | TimedOut | NotRegistered | TransportError

  /** How `send_durable_event_msg` classifies an attempt at a client that has (not) had an answer. */
  function Classify(a: Attempt, answeredDurable: bool): Outcome
  {
    match a.rpc
    case Answer(_) => Answered
    case Timeout => TimedOut
    case NoMatch => if !answeredDurable && a.alive then NotRegistered else TransportError
    case OtherError => TransportError
  }

  class KeeperClient {
    var answeredDurable: bool

    constructor ()
      ensures !answeredDurable
    {
      answeredDurable := false;
    }

    method SendDurable(a: Attempt) returns (outcome: Outcome, keeperCode: int)
      modifies this
      ensures outcome == Classify(a, old(answeredDurable))
      ensures keeperCode == if a.rpc.Answer? then a.rpc.code else CL_ERR_UNKNOWN
      ensures answeredDurable == (old(answeredDurable) || a.rpc.Answer?)
    {
      keeperCode := CL_ERR_UNKNOWN;
      match a.rpc {
        case Answer(code) =>
          keeperCode := code;
          answeredDurable := true;
          return Answered, keeperCode;
        case Timeout =>
          return TimedOut, keeperCode;
        case NoMatch =>
          if !answeredDurable && a.alive {
            return NotRegistered, keeperCode;
          }
        case OtherError =>
      }
      return TransportError, keeperCode;
    }
  }

  /** One turn of the retry loop: no keeper to choose, or a chosen keeper's attempt. */
  datatype Turn = NoKeeper | Ask(client: KeeperClient, attempt: Attempt)

  /** The same turn with the client's flag read off. */
  datatype Sent = Nobody | Sent(answered: bool, attempt: Attempt)

  ghost predicate Among(turns: seq<Turn>, clients: set<KeeperClient>)
  {
    forall k | 0 <= k < |turns| && turns[k].Ask? :: turns[k].client in clients
  }

  ghost function SentOf(turns: seq<Turn>, clients: set<KeeperClient>): (sent: seq<Sent>)
    requires Among(turns, clients)
    reads clients
    ensures |sent| == |turns|
  {
    if turns == [] then []
    else
      [if turns[0].NoKeeper? then Nobody else Sent(turns[0].client.answeredDurable, turns[0].attempt)]
      + SentOf(turns[1..], clients)
  }

  lemma {:induction false} SentAt(turns: seq<Turn>, clients: set<KeeperClient>)
    requires Among(turns, clients)
    ensures forall k | 0 <= k < |turns| ::
              SentOf(turns, clients)[k] ==
              if turns[k].NoKeeper? then Nobody else Sent(turns[k].client.answeredDurable, turns[k].attempt)
  {
    if turns != [] {
      SentAt(turns[1..], clients);
      assert forall k | 1 <= k < |turns| :: turns[k] == turns[1..][k - 1];
    }
  }

  /** The answer, whether event_time is set, how many attempts were sent, and whether the code is a
      keeper's rather than the client's own. */
  datatype Decision = Decision(code: int, timed: bool, sent: nat, keepers: bool)

  predicate SaysNotStored(code: int) { code == CL_ERR_DURABILITY_UNAVAILABLE || code == CL_ERR_DURABILITY_FULL }

  /** `log_durable_event` from the head of turn k, with `may_be_stored` = may. */
  function Decide(turns: seq<Sent>, k: nat, may: bool): (d: Decision)
    requires k <= |turns|
    ensures k <= d.sent <= |turns|
    decreases |turns| - k
  {
    if k == |turns| || turns[k].Nobody? then
      if may then Decision(CL_ERR_DURABILITY_UNKNOWN, true, k, false) else Decision(CL_ERR_NO_KEEPERS, false, k, false)
    else
      match Classify(turns[k].attempt, turns[k].answered)
      case Answered =>
        var c := turns[k].attempt.rpc.code;
        var code := if may && SaysNotStored(c) then CL_ERR_DURABILITY_UNKNOWN else c;
        Decision(code, code == CL_SUCCESS || code == CL_ERR_DURABILITY_UNKNOWN, k + 1, true)
      case NotRegistered =>
        if may then Decision(CL_ERR_DURABILITY_UNKNOWN, true, k + 1, false)
        else Decision(CL_ERR_DURABILITY_UNAVAILABLE, false, k + 1, false)
      case _ => Decide(turns, k + 1, true)
  }

  /** The answer to a durable write whose turns go as given. */
  function Verdict(turns: seq<Sent>): Decision { Decide(turns, 0, false) }

  predicate AnsweredBy(turn: Turn, client: KeeperClient)
  {
    turn.Ask? && turn.client == client && turn.attempt.rpc.Answer?
  }

  /** The turn of the last attempt sent. */
  function LastSent(turns: seq<Turn>, d: Decision): Turn
  {
    if 0 < d.sent <= |turns| then turns[d.sent - 1] else NoKeeper
  }

  /** The retry loop. No client is asked again after it answered, so the flags read at the start
      are the flags every attempt meets. */
  method LogDurableEvent(turns: seq<Turn>, time: uint64, clients: set<KeeperClient>)
    returns (code: int, eventTime: uint64, ghost d: Decision)
    requires Among(turns, clients)
    modifies clients
    ensures d == Verdict(old(SentOf(turns, clients)))
    ensures code == d.code && eventTime == if d.timed then time else 0
    ensures forall c | c in clients ::
              c.answeredDurable == (old(c.answeredDurable) || AnsweredBy(LastSent(turns, d), c))
  {
    hide SentOf;
    var mayBeStored := false;
    ghost var sent := SentOf(turns, clients);
    ghost var all := Verdict(sent);
    SentAt(turns, clients);
    assert forall j | 0 <= j < |turns| ::
        sent[j] ==
        if turns[j].NoKeeper? then Nobody else Sent(old(turns[j].client.answeredDurable), turns[j].attempt);
    var k := 0;
    while k < |turns|
      invariant 0 <= k <= |turns| && |sent| == |turns|
      invariant all == Decide(sent, k, mayBeStored)
      invariant forall c | c in clients :: c.answeredDurable == old(c.answeredDurable)
      invariant k > 0 && turns[k - 1].Ask? ==> !turns[k - 1].attempt.rpc.Answer?
    {
      if turns[k].NoKeeper? {
        break;
      }
      var outcome, keeperCode := turns[k].client.SendDurable(turns[k].attempt);
      match outcome {
        case Answered =>
          if mayBeStored && SaysNotStored(keeperCode) {
            keeperCode := CL_ERR_DURABILITY_UNKNOWN;
          }
          eventTime := 0;
          if keeperCode == CL_SUCCESS || keeperCode == CL_ERR_DURABILITY_UNKNOWN {
            eventTime := time;
          }
          return keeperCode, eventTime, all;
        case NotRegistered =>
          if !mayBeStored {
            return CL_ERR_DURABILITY_UNAVAILABLE, 0, all;
          }
          return CL_ERR_DURABILITY_UNKNOWN, time, all;
        case _ =>
          mayBeStored := true;
      }
      k := k + 1;
    }
    if !mayBeStored {
      return CL_ERR_NO_KEEPERS, 0, all;
    }
    return CL_ERR_DURABILITY_UNKNOWN, time, all;
  }

  /* ---- what the answer means ---- */

  /** What a keeper's answer vouches for. Nothing is taken for granted of an attempt without one. */
  predicate Honest(a: Attempt)
  {
    a.rpc.Answer? ==>
      !a.pending && (a.rpc.code == CL_SUCCESS ==> a.stored) && (SaysNotStored(a.rpc.code) ==> !a.stored)
  }

  ghost predicate AllHonest(turns: seq<Sent>)
  {
    forall k | 0 <= k < |turns| && turns[k].Sent? :: Honest(turns[k].attempt)
  }

  /** Attempt k left the event stored, or may still. */
  predicate MayExist(turns: seq<Sent>, k: nat)
    requires k < |turns|
  {
    turns[k].Sent? && (turns[k].attempt.stored || turns[k].attempt.pending)
  }

  /** event_time is given exactly when the event is, or may be, stored. */
  lemma {:induction false} TimeExactly(turns: seq<Sent>, k: nat, may: bool)
    requires k <= |turns|
    ensures var d := Decide(turns, k, may);
            d.timed <==> d.code == CL_SUCCESS || d.code == CL_ERR_DURABILITY_UNKNOWN
    decreases |turns| - k
  {
    if k < |turns| { TimeExactly(turns, k + 1, true); }
  }

  /** CL_SUCCESS: the last attempt sent stored the event. */
  lemma {:induction false} SuccessIsStored(turns: seq<Sent>, k: nat, may: bool)
    requires k <= |turns| && AllHonest(turns) && Decide(turns, k, may).code == CL_SUCCESS
    ensures var last := Decide(turns, k, may).sent - 1;
            k <= last && turns[last].Sent? && turns[last].attempt.stored
    decreases |turns| - k
  {
    if Classify(turns[k].attempt, turns[k].answered) == Answered {
      assert Honest(turns[k].attempt);
    } else {
      SuccessIsStored(turns, k + 1, true);
    }
  }

  /* ---- which turn decides, and what it gives ---- */

  /** A turn that leaves the loop going: the attempt was sent and may have stored the event, and no
      answer came. A NO_MATCH is such a silence once the client has had an answer, or when the keeper is
      not there for the probe either. */
  predicate Unanswered(turn: Sent)
  {
    turn.Sent? &&
    match turn.attempt.rpc
    case Answer(_) => false
    case NoMatch => turn.answered || !turn.attempt.alive
    case _ => true
  }

  ghost predicate AllUnanswered(turns: seq<Sent>, j: nat)
    requires j <= |turns|
  {
    forall i | 0 <= i < j :: Unanswered(turns[i])
  }

  lemma {:induction false} UnansweredGoesOn(turns: seq<Sent>, k: nat, may: bool, j: nat)
    requires k <= j <= |turns| && AllUnanswered(turns, j)
    ensures Decide(turns, k, may) == Decide(turns, j, may || k < j)
    decreases j - k
  {
    if k < j {
      assert Unanswered(turns[k]);
      UnansweredGoesOn(turns, k + 1, true, j);
    }
  }

  /** The first answer ends the loop and is handed on as it is, unless it denies the event after an
      attempt that may have stored it. */
  lemma FirstAnswerDecides(turns: seq<Sent>, j: nat)
    requires j < |turns| && AllUnanswered(turns, j) && turns[j].Sent? && turns[j].attempt.rpc.Answer?
    ensures var c, d := turns[j].attempt.rpc.code, Verdict(turns);
            d.sent == j + 1 && d.keepers &&
            d.code == if j > 0 && c in {CL_ERR_DURABILITY_UNAVAILABLE, CL_ERR_DURABILITY_FULL}
                      then CL_ERR_DURABILITY_UNKNOWN else c
  {
    UnansweredGoesOn(turns, 0, false, j);
  }

  /** A NO_MATCH from a keeper that is there, at a client without an answer so far, ends it too: the
      keeper lacks the RPC. */
  lemma MissingRpcDecides(turns: seq<Sent>, j: nat)
    requires j < |turns| && AllUnanswered(turns, j)
    requires turns[j].Sent? && turns[j].attempt.rpc.NoMatch? && !turns[j].answered && turns[j].attempt.alive
    ensures var d := Verdict(turns);
            d.sent == j + 1 && !d.keepers &&
            d.code == if j > 0 then CL_ERR_DURABILITY_UNKNOWN else CL_ERR_DURABILITY_UNAVAILABLE
  {
    UnansweredGoesOn(turns, 0, false, j);
  }

  /** Otherwise every turn is sent, up to the first that finds no keeper to choose. */
  lemma NoAnswerUsesEveryTurn(turns: seq<Sent>, j: nat)
    requires j <= |turns| && AllUnanswered(turns, j) && (j < |turns| ==> turns[j].Nobody?)
    ensures var d := Verdict(turns);
            d.sent == j && !d.keepers && d.code == if j > 0 then CL_ERR_DURABILITY_UNKNOWN else CL_ERR_NO_KEEPERS
  {
    UnansweredGoesOn(turns, 0, false, j);
  }

  lemma {:induction false} FirstToDecide(turns: seq<Sent>, k: nat) returns (j: nat)
    requires k <= |turns| && AllUnanswered(turns, k)
    ensures k <= j <= |turns| && AllUnanswered(turns, j) && (j < |turns| ==> !Unanswered(turns[j]))
    decreases |turns| - k
  {
    j := k;
    if k < |turns| && Unanswered(turns[k]) { j := FirstToDecide(turns, k + 1); }
  }

  /** CL_SUCCESS exactly when the first turn that decides is a keeper's answer of CL_SUCCESS. */
  lemma SuccessExactlyWhen(turns: seq<Sent>)
    ensures Verdict(turns).code == CL_SUCCESS <==>
            exists j :: 0 <= j < |turns| && AllUnanswered(turns, j) &&
                        turns[j].Sent? && turns[j].attempt.rpc == Answer(CL_SUCCESS)
  {
    hide Verdict, AllUnanswered;
    NoneBefore(turns);
    var j := FirstToDecide(turns, 0);
    if j == |turns| || turns[j].Nobody? {
      NoAnswerUsesEveryTurn(turns, j);
    } else if turns[j].attempt.rpc.Answer? {
      FirstAnswerDecides(turns, j);
    } else {
      MissingRpcDecides(turns, j);
    }
    forall i | 0 <= i < |turns| && AllUnanswered(turns, i) && turns[i].Sent? &&
               turns[i].attempt.rpc == Answer(CL_SUCCESS)
      ensures Verdict(turns).code == CL_SUCCESS
    {
      FirstAnswerDecides(turns, i);
    }
  }

  lemma NoneBefore(turns: seq<Sent>)
    ensures AllUnanswered(turns, 0)
  {
  }

  /** UNAVAILABLE, FULL or the client's own NO_KEEPERS: the event was not stored and will not be. */
  predicate Denies(d: Decision) { SaysNotStored(d.code) || (d.code == CL_ERR_NO_KEEPERS && !d.keepers) }

  /** A code that denies storage comes with nothing unanswered before it. */
  lemma {:induction false} DenialIsImmediate(turns: seq<Sent>, k: nat, may: bool)
    requires k <= |turns| && Denies(Decide(turns, k, may))
    ensures !may && Decide(turns, k, may).sent <= k + 1
    ensures Decide(turns, k, may).sent == k + 1 ==>
              turns[k].Sent? && Classify(turns[k].attempt, turns[k].answered) in {Answered, NotRegistered}
    decreases |turns| - k
  {
    if k < |turns| && turns[k].Sent? && Classify(turns[k].attempt, turns[k].answered) in {TimedOut, TransportError} {
      DenialIsImmediate(turns, k + 1, true);
    }
  }

  /** Some attempt that was sent left the event stored, or may still. */
  ghost predicate Exists(turns: seq<Sent>)
  {
    exists k :: 0 <= k < Verdict(turns).sent && MayExist(turns, k)
  }

  /** The first attempt met NO_MATCH at a client without an answer so far, and the keeper was there
      for the probe: it is taken for one that lacks the RPC. */
  predicate TakenForUnable(turns: seq<Sent>)
  {
    turns != [] && turns[0].Sent? && turns[0].attempt.rpc == NoMatch && !turns[0].answered && turns[0].attempt.alive
  }

  /** With keepers whose answers are true, a denial is wrong in exactly one case: the keeper taken for
      one that lacks the RPC had it, and stored the event or still may. */
  lemma DenialIsWrongExactlyWhen(turns: seq<Sent>)
    requires AllHonest(turns)
    ensures Denies(Verdict(turns)) && Exists(turns) <==> TakenForUnable(turns) && MayExist(turns, 0)
    ensures TakenForUnable(turns) ==> Verdict(turns).code == CL_ERR_DURABILITY_UNAVAILABLE
  {
    if Denies(Verdict(turns)) && Exists(turns) {
      DenialIsImmediate(turns, 0, false);
      var k :| 0 <= k < Verdict(turns).sent && MayExist(turns, k);
      assert k == 0 && Honest(turns[0].attempt);
    }
  }

  /** What a caller can check: unless the first attempt met NO_MATCH at a client that had never had an
      answer, a denial is right. No keeper's silence is trusted for it. */
  lemma DenialIsSound(turns: seq<Sent>)
    requires AllHonest(turns) && Denies(Verdict(turns))
    requires turns != [] && turns[0].Sent? && turns[0].attempt.rpc == NoMatch ==> turns[0].answered
    ensures forall k | 0 <= k < Verdict(turns).sent :: !MayExist(turns, k)
  {
    DenialIsWrongExactlyWhen(turns);
  }

  /** Nothing sent, nothing stored: the client's own NO_KEEPERS. */
  lemma NoKeepersMeansNothingSent(turns: seq<Sent>)
    requires Verdict(turns).code == CL_ERR_NO_KEEPERS && !Verdict(turns).keepers
    ensures Verdict(turns).sent == 0 && (turns == [] || turns[0].Nobody?)
  {
    DenialIsImmediate(turns, 0, false);
  }

  /** DURABILITY_UNKNOWN is never a shrug: a keeper said so, or an attempt went unanswered. */
  lemma {:induction false} UnknownHasAReason(turns: seq<Sent>, k: nat, may: bool)
    requires k <= |turns| && Decide(turns, k, may).code == CL_ERR_DURABILITY_UNKNOWN
    ensures may || exists j :: k <= j < Decide(turns, k, may).sent && turns[j].Sent? &&
                      (turns[j].attempt.rpc == Answer(CL_ERR_DURABILITY_UNKNOWN) ||
                       Classify(turns[j].attempt, turns[j].answered) in {TimedOut, TransportError})
  {
    if !may { assert turns[k].Sent?; }
  }

  /** A keeper that stores the event, dies before answering and is back up for the probe makes that
      denial wrong; a client that has had an answer from it before is not fooled. */
  lemma RestartBetweenForwardAndProbe()
    ensures var a := Attempt(NoMatch, true, true, false);
            Verdict([Sent(false, a)]).code == CL_ERR_DURABILITY_UNAVAILABLE && a.stored &&
            Verdict([Sent(true, a)]).code == CL_ERR_DURABILITY_UNKNOWN
  {
    var a := Attempt(NoMatch, true, true, false);
    assert Decide([Sent(true, a)], 1, true).code == CL_ERR_DURABILITY_UNKNOWN;
  }

  /* ---- log_event ---- */

  datatype Durability = Accepted | Durable | Other

  datatype Options = Options(durability: Durability, attempts: nat, timeoutMs: nat)

  /** `log_event` with options: the guards, then one send or the durable loop. The environment gives
      whether the story has keepers, each turn of the durable loop, and the plain send's code (None
      when no keeper is chosen). */
  method LogEvent(record: string, options: Options, haveKeepers: bool, turns: seq<Turn>, plain: Option<int>,
                  time: uint64, clients: set<KeeperClient>)
    returns (code: int, eventTime: uint64)
    requires |turns| == options.attempts && Among(turns, clients)
    modifies clients
    ensures options.durability.Durable? && options.attempts > 0 && options.timeoutMs > 0 && record != "" &&
            haveKeepers ==>
              var d := Verdict(old(SentOf(turns, clients)));
              code == d.code && eventTime == if d.timed then time else 0
    ensures options.durability.Other? || (options.durability.Durable? &&
              (options.attempts == 0 || options.timeoutMs == 0 || record == "")) ==>
              code == CL_ERR_INVALID_ARG && eventTime == 0
    ensures options.durability.Accepted? && haveKeepers ==>
              code == (if plain.None? then CL_ERR_NO_KEEPERS else plain.value) &&
              eventTime == if plain == Some(CL_SUCCESS) then time else 0
    ensures !haveKeepers && code != CL_ERR_INVALID_ARG ==> code == CL_ERR_NO_KEEPERS && eventTime == 0
    ensures !options.durability.Durable? || !haveKeepers ==>
              forall c | c in clients :: c.answeredDurable == old(c.answeredDurable)
  {
    eventTime := 0;
    if options.durability.Other? { return CL_ERR_INVALID_ARG, 0; }
    if options.durability.Durable? && (options.attempts == 0 || options.timeoutMs == 0) {
      return CL_ERR_INVALID_ARG, 0;
    }
    if options.durability.Durable? && record == "" { return CL_ERR_INVALID_ARG, 0; }
    if !haveKeepers { return CL_ERR_NO_KEEPERS, 0; }
    if options.durability.Durable? {
      ghost var d;
      code, eventTime, d := LogDurableEvent(turns, time, clients);
      return;
    }
    if plain.None? { return CL_ERR_NO_KEEPERS, 0; }
    code := plain.value;
    if code == CL_SUCCESS { eventTime := time; }
  }
}
