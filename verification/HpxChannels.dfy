/** Generations of the channel communicator: one number names the time stage and the kind of message. */
module HpxChannels {
  import opened SspRk

  type Message = seq<real>

  function Generation(nComm: nat, timestamp: nat, commType: nat): nat {
    nComm * timestamp + commType
  }

  /** Two (timestamp, type) pairs share a generation only if they are the same. */
  lemma {:induction false} GenerationInjective(nComm: nat, t: nat, c: nat, t': nat, c': nat)
    requires c < nComm && c' < nComm
    ensures Generation(nComm, t, c) == Generation(nComm, t', c') <==> t == t' && c == c'
  {
    if t < t' {
      LaterIsLarger(nComm, t, c, t', c');
    } else if t' < t {
      LaterIsLarger(nComm, t', c', t, c);
    }
  }

  lemma {:induction false} LaterIsLarger(nComm: nat, t: nat, c: nat, t': nat, c': nat)
    requires c < nComm && t < t'
    ensures Generation(nComm, t, c) < Generation(nComm, t', c')
  {
    var d := t' - t - 1;
    assert nComm * d >= 0;
    assert nComm * t' == nComm * (t + 1 + d) == nComm * t + nComm + nComm * d;
  }

  /** Over all steps and stages of one stepper a generation names step, stage and type. */
  lemma GenerationNamesStage(nComm: nat, nstages: nat, step: nat, stage: nat, c: nat, step': nat, stage': nat, c': nat)
    requires c < nComm && c' < nComm && stage < nstages && stage' < nstages
    ensures Generation(nComm, step * nstages + stage, c) == Generation(nComm, step' * nstages + stage', c')
       <==> step == step' && stage == stage' && c == c'
  {
    LoadRecoversStep(step, stage, nstages);
    LoadRecoversStep(step', stage', nstages);
    GenerationInjective(nComm, step * nstages + stage, c, step' * nstages + stage', c');
  }

  /**
   The ends one rank boundary holds of the channels to and from a neighbour; a channel stores one value a generation.
   */
  datatype RankBoundary = RankBoundary(
    sendBuffer: seq<Message>, receiveBuffer: seq<Message>, outgoing: map<nat, Message>, incoming: map<nat, Message>)

  class HPXCommunicator {
    const nComm: nat
    var boundaries: seq<RankBoundary>

    ghost predicate Valid()
      reads this
    {
      forall b | b in boundaries :: |b.sendBuffer| == |b.receiveBuffer| == nComm
    }

    method SendAll(commType: nat, timestamp: nat)
      requires Valid() && commType < nComm
      requires forall b | b in boundaries :: Generation(nComm, timestamp, commType) !in b.outgoing
      modifies `boundaries
      ensures Valid() && |boundaries| == |old(boundaries)|
      ensures forall i | 0 <= i < |boundaries| :: boundaries[i] == old(boundaries)[i].(
                outgoing :=
                  old(boundaries)[i].outgoing[Generation(nComm, timestamp,
                                                         commType) := boundaries[i].sendBuffer[commType]])
    {
      var offset := nComm * timestamp + commType;
      ghost var before := boundaries;
      for i := 0 to |boundaries|
        invariant |boundaries| == |before|
        invariant forall j | i <= j < |before| :: boundaries[j] == before[j]
        invariant forall j | 0 <= j < i ::
                    boundaries[j]
                    == before[j].(outgoing := before[j].outgoing[offset := before[j].sendBuffer[commType]])
      {
        var b := boundaries[i];
        assert b in before;
        boundaries := boundaries[i := b.(outgoing := b.outgoing[offset := b.sendBuffer[commType]])];
      }
      assert forall b | b in boundaries :: exists j :: 0 <= j < |before| && b.sendBuffer == before[j].sendBuffer
                                                    && b.receiveBuffer == before[j].receiveBuffer
                                                        && before[j] in before;
    }

    /** When every value asked for has arrived. */
    method ReceiveAll(commType: nat, timestamp: nat)
      requires Valid() && commType < nComm
      requires forall b | b in boundaries :: Generation(nComm, timestamp, commType) in b.incoming
      modifies `boundaries
      ensures |boundaries| == |old(boundaries)|
      ensures forall i | 0 <= i < |boundaries| ::
                && Generation(nComm, timestamp, commType) in old(boundaries)[i].incoming
                && |old(boundaries)[i].receiveBuffer| == nComm
                && boundaries[i] == old(boundaries)[i].(receiveBuffer := old(boundaries)[i].receiveBuffer[
                     commType := old(boundaries)[i].incoming[Generation(nComm, timestamp, commType)]])
    {
      var offset := nComm * timestamp + commType;
      ghost var before := boundaries;
      assert forall j | 0 <= j < |before| :: before[j] in before;
      for i := 0 to |boundaries|
        invariant |boundaries| == |before|
        invariant forall j | i <= j < |before| :: boundaries[j] == before[j]
        invariant forall j | 0 <= j < i ::
                    boundaries[j]
                    == before[j].(receiveBuffer := before[j].receiveBuffer[commType := before[j].incoming[offset]])
      {
        var b := boundaries[i];
        boundaries := boundaries[i := b.(receiveBuffer := b.receiveBuffer[commType := b.incoming[offset]])];
      }
    }
  }

  // ----- what a channel delivers -----

  /** A value put on a channel. */
  datatype Send = Send(timestamp: nat, commType: nat, message: Message)

  /** Every stage and type is sent at most once. */
  ghost predicate SentOnce(nComm: nat, log: seq<Send>) {
    && (forall i | 0 <= i < |log| :: log[i].commType < nComm)
    && (forall i, j | 0 <= i < j < |log| :: log[i].timestamp != log[j].timestamp || log[i].commType != log[j].commType)
  }

  /** The channel after a history of sends. */
  function Contents(nComm: nat, log: seq<Send>): map<nat, Message> {
    if log == [] then map[] else
      var s := log[|log| - 1];
      Contents(nComm, log[..|log| - 1])[Generation(nComm, s.timestamp, s.commType) := s.message]
  }

  /** Receiving for a stage and type yields the message sent for that stage and type, and nothing before it was sent. */
  lemma {:induction false} ReceiveMatchesSend(nComm: nat, log: seq<Send>, timestamp: nat, commType: nat)
    requires SentOnce(nComm, log) && commType < nComm
    ensures var g := Generation(nComm, timestamp, commType);
            && (g in Contents(nComm, log) <==> exists i ::
                0 <= i < |log| && log[i].timestamp == timestamp && log[i].commType == commType)
            && (forall i | 0 <= i < |log| && log[i].timestamp == timestamp && log[i].commType == commType ::
                  g in Contents(nComm, log) && Contents(nComm, log)[g] == log[i].message)
  {
    if log != [] {
      var init, s := log[..|log| - 1], log[|log| - 1];
      ReceiveMatchesSend(nComm, init, timestamp, commType);
      GenerationInjective(nComm, s.timestamp, s.commType, timestamp, commType);
      assert forall i | 0 <= i < |init| :: init[i] == log[i];
    }
  }

  /** A send never finds its generation taken. */
  lemma SendFindsRoom(nComm: nat, log: seq<Send>, s: Send)
    requires SentOnce(nComm, log + [s])
    ensures Generation(nComm, s.timestamp, s.commType) !in Contents(nComm, log)
  {
    assert (log + [s])[|log|] == s && forall i | 0 <= i < |log| :: (log + [s])[i] == log[i];
    ReceiveMatchesSend(nComm, log, s.timestamp, s.commType);
  }
}
