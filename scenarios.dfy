/**
 * Client code driving the handlers through the situations in which the three
 * quirks of the server show: ending a question twice, a timer outliving its
 * question, and a socket joining twice; and through ordinary cases, a name
 * taken up to case and padding, an answer arriving too late and a timer
 * arriving after a manual end. Each method
 * starts from any registry state meeting its `requires` and states what the
 * handlers' contracts imply.
 */
module Scenarios {
  import opened Wrappers
  import opened Text
  import opened QuizDocument
  import opened Standings
  import opened AnswerLedger
  import opened Rooms
  import opened Membership
  import opened Orchestrator

  /** The host sends `host:endQuestion` twice: a player with a correct entry
      gains two points, as the second end scores the same ledger again. */
  method EndingTwiceScoresTwice(s: Server, host: SocketId, code: string, i: nat)
    requires s.Valid() && s.IsHost(host, code) && s.rooms[code].quiz.Some?
    requires i < |s.rooms[code].players|
    requires AnsweredCorrectly(s.rooms[code].answers, s.rooms[code].players[i].id)
    modifies s.RoomAt(code)
    ensures code in s.rooms && |s.rooms[code].players| == old(|s.rooms[code].players|)
    ensures s.rooms[code].players[i].score == old(s.rooms[code].players[i].score) + 2
  {
    ghost var before := s.rooms[code].players;
    var first := s.HostEndQuestion(host, code);
    var second := s.HostEndQuestion(host, code);
    ScoringTwiceCountsTwice(before, s.rooms[code].answers, i);
  }

  /** A timer armed for one question fires after the host has ended that question
      and shown the next one: it ends the next question, because the captured
      room object is the live room and its index is compared with itself. */
  method StaleTimerEndsNextQuestion(s: Server, host: SocketId, code: string, t: Timer)
    requires s.Valid() && s.IsHost(host, code) && s.rooms[code].quiz.Some?
    requires t.code == code && t.room == s.rooms[code]
    requires 0 <= s.rooms[code].qIndex && s.rooms[code].qIndex + 1 < |s.rooms[code].quiz.value.questions|
    modifies s.RoomAt(code)
    ensures s.rooms[code].qIndex == old(s.rooms[code].qIndex) + 1 && !s.rooms[code].acceptingAnswers
  {
    var ended := s.HostEndQuestion(host, code);
    var shown := s.Next(host, code);
    assert shown.Shown? && s.rooms[code].acceptingAnswers;
    var fired := s.FireTimer(t);
    assert fired.Ended?;
  }

  /** A socket joins as `first`, then again as `second`: the key of `first` stays
      claimed, so another socket cannot take that name although no player of the
      room bears it any more. */
  method RejoinBlocksOldName(s: Server, code: string, id: SocketId, other: SocketId, first: string, second: string)
    returns (blocked: Result<JoinAck, JoinError>)
    requires s.Valid() && code in s.rooms
    requires Key(first) != "" && Key(second) != "" && Key(first) != Key(second)
    requires Key(first) !in s.rooms[code].nameToId && Key(second) !in s.rooms[code].nameToId
    modifies s, s.RoomAt(code)
    ensures blocked == Err(NameTaken) && code in s.rooms
    ensures forall k :: 0 <= k < |s.rooms[code].players| ==> Key(s.rooms[code].players[k].name) != Key(first)
  {
    var r := s.rooms[code];
    ghost var ps := r.players;
    ghost var index := r.nameToId;
    var once := s.Join(id, code, first);
    assert once.Ok?;
    assert s.rooms[code] == r && r.players == SetPlayer(ps, Player(id, Trim(first), 0));
    assert r.nameToId == index[Key(first) := id];
    var twice := s.Join(id, code, second);
    assert twice.Ok?;
    assert s.rooms[code] == r && r.players == SetPlayer(SetPlayer(ps, Player(id, Trim(first), 0)), Player(id, Trim(second), 0));
    assert r.nameToId == index[Key(first) := id][Key(second) := id];
    KeyOfTrim(first);
    KeyOfTrim(second);
    RejoinLeavesStaleKey(ps, index, Key, id, Trim(first), Trim(second));
    blocked := s.Join(other, code, first);
  }

  /** "Ana" joins; another socket trying "ana " is refused with the name taken. */
  method SecondAnaIsRefused(s: Server, code: string, ana: SocketId, other: SocketId)
    returns (first: Result<JoinAck, JoinError>, second: Result<JoinAck, JoinError>)
    requires s.Valid() && code in s.rooms && Key("Ana") !in s.rooms[code].nameToId
    modifies s, s.RoomAt(code)
    ensures first.Ok? && second == Err(NameTaken)
  {
    AnaKey();
    first := s.Join(ana, code, "Ana");
    second := s.Join(other, code, "ana ");
  }

  /** An answer arriving after the host ended the question is dropped: the gate
      is closed, so the ledger and the scores stay as the end left them. */
  method LateAnswerIsDropped(s: Server, host: SocketId, code: string, player: SocketId,
                             value: AnswerValue, now: int)
    returns (ack: Option<AnswerAck>)
    requires s.Valid() && s.IsHost(host, code) && s.rooms[code].quiz.Some?
    requires player in s.roomOf && s.roomOf[player] == code
    modifies s.RoomAt(code)
    ensures ack == None && code in s.rooms
    ensures s.rooms[code].players == Scored(old(s.rooms[code].players), old(s.rooms[code].answers))
    ensures s.rooms[code].answers == old(s.rooms[code].answers)
  {
    var ended := s.HostEndQuestion(host, code);
    ack := s.Answer(player, value, now);
  }

  /** A timer firing after the host ended its question does nothing: the end
      closed the gate, which the callback checks. */
  method TimerAfterManualEndIsIgnored(s: Server, host: SocketId, code: string, t: Timer)
    returns (fired: EndOutcome)
    requires s.Valid() && s.IsHost(host, code) && s.rooms[code].quiz.Some? && t.code == code
    modifies s.RoomAt(code)
    ensures fired == NotEnded && code in s.rooms
    ensures s.rooms[code].players == Scored(old(s.rooms[code].players), old(s.rooms[code].answers))
  {
    var ended := s.HostEndQuestion(host, code);
    fired := s.FireTimer(t);
  }

  /** The other order re-scores: the timer ends the question, then the host's
      `host:endQuestion` scores the same ledger again, so a correct answerer
      gains two points. */
  method TimerThenManualEndScoresTwice(s: Server, host: SocketId, code: string, t: Timer, i: nat)
    requires s.Valid() && s.IsHost(host, code) && s.rooms[code].quiz.Some?
    requires t.code == code && t.room == s.rooms[code] && s.rooms[code].acceptingAnswers
    requires i < |s.rooms[code].players|
    requires AnsweredCorrectly(s.rooms[code].answers, s.rooms[code].players[i].id)
    modifies s.RoomAt(code)
    ensures code in s.rooms && |s.rooms[code].players| == old(|s.rooms[code].players|)
    ensures s.rooms[code].players[i].score == old(s.rooms[code].players[i].score) + 2
  {
    ghost var before := s.rooms[code].players;
    var fired := s.FireTimer(t);
    assert !fired.NotEnded?;
    var again := s.HostEndQuestion(host, code);
    ScoringTwiceCountsTwice(before, s.rooms[code].answers, i);
  }
}
