/** Racing all providers of a block over a buffered channel (internal/node/api.go, `fetchBlockMultipath`). */
module Race {
  import opened Bytes
  import opened Hashing
  import opened Chunker

  /** What one provider's fetch came to. */
  datatype Outcome = Got(block: Block) | Error

  datatype Receiver = Waiting | Returned(block: Block) | Exhausted

  /** `sent[i]` is what sender `i` put into the channel, if it has; `received` is what was taken out, in order. */
  datatype State = State(sent: seq<Option<Outcome>>, channel: seq<Outcome>, received: seq<Outcome>, receiver: Receiver)

  datatype Event = Send(i: nat, outcome: Outcome) | Receive

  /** The channel's capacity is the number of providers. */
  function Capacity(s: State): nat {
    |s.sent|
  }

  ghost predicate Initial(s: State) {
    |s.sent| >= 2 && (forall i | 0 <= i < |s.sent| :: s.sent[i].None?) && s == State(s.sent, [], [], Waiting)
  }

  /** A fetch yields a block only after checking its CID (`Wire.FetchedBlockMatches`). */
  ghost predicate Possible(sha: Sha, cid: Cid, o: Outcome) {
    o.Got? ==> o.block.cid == cid && ComputeCID(sha, o.block.data) == cid
  }

  ghost predicate Step(sha: Sha, cid: Cid, s: State, ev: Event, t: State) {
    match ev
    case Send(i, o) =>
      && i < |s.sent| && s.sent[i].None? && |s.channel| < Capacity(s) && Possible(sha, cid, o)
      && t == s.(sent := s.sent[i := Some(o)], channel := s.channel + [o])
    case Receive =>
      && s.receiver == Waiting && s.channel != []
      && t.sent == s.sent && t.channel == s.channel[1..] && t.received == s.received + [s.channel[0]]
      && t.receiver == match s.channel[0]
                       case Got(b) => Returned(b)
                       case Error => if |t.received| == |s.sent| then Exhausted else Waiting
  }

  ghost predicate IsRun(sha: Sha, cid: Cid, ss: seq<State>, evs: seq<Event>) {
    && |ss| == |evs| + 1 && Initial(ss[0])
    && forall i | 0 <= i < |evs| :: Step(sha, cid, ss[i], evs[i], ss[i + 1])
  }

  function Pending(sent: seq<Option<Outcome>>): nat {
    if sent == [] then 0 else (if sent[0].None? then 1 else 0) + Pending(sent[1..])
  }

  /** All outcomes sent so far. */
  function Outcomes(sent: seq<Option<Outcome>>): multiset<Outcome> {
    if sent == [] then multiset{}
    else (if sent[0].Some? then multiset{sent[0].value} else multiset{}) + Outcomes(sent[1..])
  }

  lemma {:induction false} OutcomesUpdate(sent: seq<Option<Outcome>>, i: nat, o: Outcome)
    requires i < |sent| && sent[i].None?
    ensures Outcomes(sent[i := Some(o)]) == Outcomes(sent) + multiset{o}
    ensures Pending(sent[i := Some(o)]) == Pending(sent) - 1
  {
    var t := sent[i := Some(o)];
    if i > 0 {
      assert t[1..] == sent[1..][i - 1 := Some(o)];
      OutcomesUpdate(sent[1..], i - 1, o);
    } else {
      assert t[1..] == sent[1..];
    }
  }

  lemma {:induction false} OutcomesCount(sent: seq<Option<Outcome>>)
    ensures |Outcomes(sent)| + Pending(sent) == |sent|
    ensures (exists i | 0 <= i < |sent| :: sent[i].None?) <==> Pending(sent) > 0
  {
    if sent != [] {
      OutcomesCount(sent[1..]);
    }
  }

  lemma {:induction false} OutcomesMembers(sent: seq<Option<Outcome>>, o: Outcome)
    ensures o in Outcomes(sent) <==> Some(o) in sent
  {
    if sent != [] {
      OutcomesMembers(sent[1..], o);
      assert sent == [sent[0]] + sent[1..];
    }
  }

  ghost predicate AllErrors(os: seq<Outcome>) {
    forall i | 0 <= i < |os| :: os[i] == Error
  }

  /** Everything sent is in the channel or was received, once; the receiver has stopped at the first block. */
  ghost predicate Consistent(sha: Sha, cid: Cid, s: State) {
    && Outcomes(s.sent) == multiset(s.channel) + multiset(s.received)
    && (forall o | o in Outcomes(s.sent) :: Possible(sha, cid, o))
    && match s.receiver
       case Waiting => |s.received| < |s.sent| && AllErrors(s.received)
       case Exhausted => |s.received| == |s.sent| && AllErrors(s.received)
       case Returned(b) => s.received != [] && s.received[|s.received| - 1] == Got(b)
                           && AllErrors(s.received[..|s.received| - 1])
  }

  lemma Moves(channel: seq<Outcome>, received: seq<Outcome>)
    requires channel != []
    ensures multiset(channel[1..]) + multiset(received + [channel[0]]) == multiset(channel) + multiset(received)
    ensures (received + [channel[0]])[..|received|] == received
  {
    assert channel == [channel[0]] + channel[1..];
  }

  lemma {:induction false} NothingSent(sent: seq<Option<Outcome>>)
    requires forall i | 0 <= i < |sent| :: sent[i].None?
    ensures Outcomes(sent) == multiset{} && Pending(sent) == |sent|
  {
    if sent != [] {
      NothingSent(sent[1..]);
    }
  }

  lemma StepConsistent(sha: Sha, cid: Cid, s: State, ev: Event, t: State)
    requires Consistent(sha, cid, s) && Step(sha, cid, s, ev, t)
    ensures Consistent(sha, cid, t) && |t.sent| == |s.sent|
    ensures 2 * Pending(t.sent) + |t.channel| < 2 * Pending(s.sent) + |s.channel|
  {
    match ev
    case Send(i, o) => SendConsistent(sha, cid, s, i, o, t);
    case Receive => ReceiveConsistent(sha, cid, s, t);
  }

  lemma SendConsistent(sha: Sha, cid: Cid, s: State, i: nat, o: Outcome, t: State)
    requires Consistent(sha, cid, s) && Step(sha, cid, s, Send(i, o), t)
    ensures Consistent(sha, cid, t) && |t.sent| == |s.sent|
    ensures 2 * Pending(t.sent) + |t.channel| < 2 * Pending(s.sent) + |s.channel|
  {
    hide Possible, Outcomes, Pending, AllErrors;
    OutcomesUpdate(s.sent, i, o);
  }

  lemma ReceiveConsistent(sha: Sha, cid: Cid, s: State, t: State)
    requires Consistent(sha, cid, s) && Step(sha, cid, s, Receive, t)
    ensures Consistent(sha, cid, t) && |t.sent| == |s.sent|
    ensures 2 * Pending(t.sent) + |t.channel| < 2 * Pending(s.sent) + |s.channel|
  {
    hide Possible, Outcomes, Pending;
    Moves(s.channel, s.received);
    Sizes(s);
  }

  lemma Sizes(s: State)
    requires Outcomes(s.sent) == multiset(s.channel) + multiset(s.received)
    ensures |s.channel| + |s.received| + Pending(s.sent) == |s.sent|
  {
    OutcomesCount(s.sent);
    assert |multiset(s.channel) + multiset(s.received)| == |s.channel| + |s.received|;
  }

  /** The invariant, and the bound on what has happened, over every schedule. */
  lemma {:induction false} RunConsistent(sha: Sha, cid: Cid, ss: seq<State>, evs: seq<Event>, i: nat)
    requires IsRun(sha, cid, ss, evs) && i < |ss|
    ensures Consistent(sha, cid, ss[i]) && |ss[i].sent| == |ss[0].sent|
    ensures i + 2 * Pending(ss[i].sent) + |ss[i].channel| <= 2 * |ss[0].sent|
  {
    if i == 0 {
      NothingSent(ss[0].sent);
    } else {
      RunConsistent(sha, cid, ss, evs, i - 1);
      StepConsistent(sha, cid, ss[i - 1], evs[i - 1], ss[i]);
    }
  }

  /**
   * In every world of every schedule: at most one receive per provider was made, and the channel has room for every
   * sender that has yet to send, also after the receiver has left.
   */
  lemma SendersNeverBlock(sha: Sha, cid: Cid, ss: seq<State>, evs: seq<Event>, i: nat)
    requires IsRun(sha, cid, ss, evs) && i < |ss|
    ensures |ss[i].received| <= |ss[0].sent| == Capacity(ss[i])
    ensures |ss[i].channel| + Pending(ss[i].sent) <= Capacity(ss[i])
    ensures (exists j | 0 <= j < |ss[i].sent| :: ss[i].sent[j].None?) ==> |ss[i].channel| < Capacity(ss[i])
  {
    RunConsistent(sha, cid, ss, evs, i);
    Sizes(ss[i]);
    OutcomesCount(ss[i].sent);
  }

  /** Every schedule ends, after at most two steps per provider. */
  lemma RacesEnd(sha: Sha, cid: Cid, ss: seq<State>, evs: seq<Event>)
    requires IsRun(sha, cid, ss, evs)
    ensures |evs| <= 2 * |ss[0].sent|
  {
    RunConsistent(sha, cid, ss, evs, |evs|);
  }

  ghost predicate Stuck(sha: Sha, cid: Cid, s: State) {
    forall ev, t :: !Step(sha, cid, s, ev, t)
  }

  /**
   * Where a schedule can go no further, every sender has sent, and the receiver has returned: a block exactly when
   * some provider delivered one, and then one that a provider delivered and that matches the CID; an error
   * exactly when all providers failed.
   */
  lemma RaceDecided(sha: Sha, cid: Cid, ss: seq<State>, evs: seq<Event>)
    requires IsRun(sha, cid, ss, evs) && Stuck(sha, cid, ss[|evs|])
    ensures var s := ss[|evs|];
            && (forall i | 0 <= i < |s.sent| :: s.sent[i].Some?)
            && s.receiver != Waiting
            && (s.receiver.Returned? <==> exists o :: Some(o) in s.sent && o.Got?)
            && (s.receiver == Exhausted <==> forall i | 0 <= i < |s.sent| :: s.sent[i] == Some(Error))
            && (s.receiver.Returned? ==> Some(Got(s.receiver.block)) in s.sent
                                         && ComputeCID(sha, s.receiver.block.data) == cid)
  {
    var s := ss[|evs|];
    RunConsistent(sha, cid, ss, evs, |evs|);
    Sizes(s);
    OutcomesCount(s.sent);
    forall i | 0 <= i < |s.sent| ensures s.sent[i].Some? {
      if s.sent[i].None? {
        assert Step(sha, cid, s, Send(i, Error), s.(sent := s.sent[i := Some(Error)], channel := s.channel + [Error]));
      }
    }
    if s.receiver == Waiting {
      var r := s.received + [s.channel[0]];
      var next := match s.channel[0]
                  case Got(b) => Returned(b)
                  case Error => if |r| == |s.sent| then Exhausted else Waiting;
      assert Step(sha, cid, s, Receive, State(s.sent, s.channel[1..], r, next));
    }
    forall o ensures o in multiset(s.channel) + multiset(s.received) <==> Some(o) in s.sent {
      OutcomesMembers(s.sent, o);
    }
    Decided(sha, cid, s);
  }

  lemma Decided(sha: Sha, cid: Cid, s: State)
    requires Consistent(sha, cid, s) && s.receiver != Waiting && |s.sent| > 0
    requires forall i | 0 <= i < |s.sent| :: s.sent[i].Some?
    requires forall o :: o in multiset(s.channel) + multiset(s.received) <==> Some(o) in s.sent
    requires |s.channel| + |s.received| == |s.sent|
    ensures s.receiver.Returned? <==> exists o :: Some(o) in s.sent && o.Got?
    ensures s.receiver == Exhausted <==> forall i | 0 <= i < |s.sent| :: s.sent[i] == Some(Error)
    ensures s.receiver.Returned? ==>
              Some(Got(s.receiver.block)) in s.sent && ComputeCID(sha, s.receiver.block.data) == cid
  {
    match s.receiver
    case Returned(b) =>
      assert Got(b) in s.received;
      assert Got(b) in multiset(s.channel) + multiset(s.received);
      assert Some(Got(b)) in s.sent;
    case Exhausted =>
      forall i | 0 <= i < |s.sent| ensures s.sent[i] == Some(Error) {
        var o := s.sent[i].value;
        assert Some(o) in s.sent && s.channel == [];
        assert o in s.received;
      }
  }
}
