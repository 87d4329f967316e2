/**
 * The record the server keeps per room, and the state change each handler makes
 * to it, stated once as a two-state predicate over the record's fields.
 */
module Rooms {
  import opened Wrappers
  import opened Text
  import opened QuizDocument
  import opened Standings
  import opened AnswerLedger
  import opened Membership

  const DefaultTitle: string := "Untitled Quiz"

  /** What ending a question broadcasts. */
  datatype EndReport = EndReport(index: int, correct: Reveal, leaderboard: seq<Standing>,
                                 stats: Stats, answers: seq<HostRow>)

  /** NotEnded: nothing happened. Faulted: the state changed, then building the
      broadcast failed because there is no current question. */
  datatype EndOutcome = NotEnded | Ended(report: EndReport) | Faulted

  class Room {
    var hostId: SocketId
    var started: bool
    var title: string
    var quiz: Option<Quiz>
    var qIndex: int
    var acceptingAnswers: bool
    var answers: seq<Entry>
    var players: seq<Player>
    var nameToId: map<string, SocketId>

    ghost predicate Valid()
      reads this
    {
      && qIndex >= -1
      && (acceptingAnswers ==> quiz.Some?)
      && OnePerSocket(answers)
      && UniqueIds(players)
      && NamesIndexed(players, nameToId)
    }

    /** The record `host:createRoom` stores. */
    constructor (host: SocketId)
      ensures Valid()
      ensures hostId == host && !started && title == DefaultTitle && quiz == None
      ensures qIndex == -1 && !acceptingAnswers && answers == [] && players == [] && nameToId == map[]
    {
      hostId := host;
      started := false;
      title := DefaultTitle;
      quiz := None;
      qIndex := -1;
      acceptingAnswers := false;
      answers := [];
      players := [];
      nameToId := map[];
    }

    /** `room.quiz.questions[room.qIndex]`, when that exists. */
    function Current(): (q: Option<Question>)
      reads this
      ensures q.Some? <==> quiz.Some? && 0 <= qIndex < |quiz.value.questions|
      ensures q.Some? ==> q.value == quiz.value.questions[qIndex]
    {
      if quiz.Some? && 0 <= qIndex < |quiz.value.questions| then Some(quiz.value.questions[qIndex]) else None
    }

    /** The broadcast that ending the current question builds from the record. */
    function Report(): (out: EndOutcome)
      reads this
      ensures out != NotEnded
      ensures out.Ended? <==> Current().Some?
    {
      match Current()
      case None => Faulted
      case Some(q) =>
        Ended(EndReport(qIndex, RevealAnswer(q), Leaderboard(players), AnswerStats(q, answers),
                        HostAnswerList(players, answers)))
    }

    twostate predicate KeepsSetup()
      reads this
    {
      hostId == old(hostId) && started == old(started) && title == old(title) && quiz == old(quiz)
    }

    twostate predicate KeepsMembers()
      reads this
    {
      players == old(players) && nameToId == old(nameToId)
    }

    twostate predicate KeepsQuestion()
      reads this
    {
      qIndex == old(qIndex) && acceptingAnswers == old(acceptingAnswers) && answers == old(answers)
    }

    /** `host:setQuiz`: the title (or the default for an empty one) and the quiz are
        stored, the index goes back before the first question and the room counts
        as not started; the answer gate and the ledger are left alone. */
    twostate predicate LoadedQuiz(newTitle: string, newQuiz: Quiz)
      reads this
    {
      && title == (if newTitle == "" then DefaultTitle else newTitle)
      && quiz == Some(newQuiz) && qIndex == -1 && !started && hostId == old(hostId)
      && acceptingAnswers == old(acceptingAnswers) && answers == old(answers)
      && KeepsMembers()
    }

    /** `host:start`: started, index before the first question, nothing else. */
    twostate predicate Began()
      reads this
    {
      && started && qIndex == -1
      && hostId == old(hostId) && title == old(title) && quiz == old(quiz)
      && acceptingAnswers == old(acceptingAnswers) && answers == old(answers)
      && KeepsMembers()
    }

    /** `host:next`: the index moves on by one; past the last question the gate
        closes and the ledger stays, otherwise the ledger is emptied and the gate
        opens. */
    twostate predicate Advanced()
      reads this
      requires quiz.Some?
    {
      && qIndex == old(qIndex) + 1
      && (qIndex >= |quiz.value.questions| ==> !acceptingAnswers && answers == old(answers))
      && (qIndex < |quiz.value.questions| ==> acceptingAnswers && answers == [])
      && KeepsSetup() && KeepsMembers()
    }

    /** `endQuestion`: the gate closes and every present player gains a point per
        correct ledger entry; the ledger itself is kept. */
    twostate predicate EndedQuestion()
      reads this
    {
      && !acceptingAnswers
      && players == Scored(old(players), old(answers))
      && answers == old(answers) && nameToId == old(nameToId) && qIndex == old(qIndex)
      && KeepsSetup()
    }

    /** `player:join` succeeding: the trimmed name with score 0 is set under the
        socket, and the name key is claimed by it. */
    twostate predicate Joined(id: SocketId, name: string)
      reads this
    {
      && players == SetPlayer(old(players), Player(id, Trim(name), 0))
      && nameToId == old(nameToId)[Key(name) := id]
      && KeepsSetup() && KeepsQuestion()
    }

    /** `player:answer` accepted: one entry appended, nothing else changes. */
    twostate predicate Recorded(e: Entry)
      reads this
    {
      answers == old(answers) + [e]
      && qIndex == old(qIndex) && acceptingAnswers == old(acceptingAnswers)
      && KeepsSetup() && KeepsMembers()
    }

    /** `disconnect` of a player: its record and its current name key are removed. */
    twostate predicate Left(id: SocketId, key: string)
      reads this
    {
      && players == RemovePlayer(old(players), id)
      && nameToId == old(nameToId) - {key}
      && KeepsSetup() && KeepsQuestion()
    }

    /** The body of `host:setQuiz` once its gate has passed. */
    method Load(newTitle: string, newQuiz: Quiz)
      requires Valid()
      modifies this
      ensures Valid() && LoadedQuiz(newTitle, newQuiz)
    {
      title := if newTitle == "" then DefaultTitle else newTitle;
      quiz := Some(newQuiz);
      qIndex := -1;
      started := false;
    }

    /** The body of `host:start` once its gate has passed. */
    method Begin()
      requires Valid()
      modifies this
      ensures Valid() && Began()
    {
      started := true;
      qIndex := -1;
    }

    /** The body of `host:next` once its gate has passed; returns the question now
        shown, if any. */
    method Advance() returns (shown: Option<Question>)
      requires Valid() && quiz.Some?
      modifies this
      ensures Valid() && quiz.Some? && Advanced()
      ensures shown == Current()
    {
      qIndex := qIndex + 1;
      if qIndex >= |quiz.value.questions| {
        acceptingAnswers := false;
        return None;
      }
      answers := [];
      acceptingAnswers := true;
      shown := Some(quiz.value.questions[qIndex]);
    }

    /** `endQuestion` once the room and its quiz are known: close the gate, run the
        scoring loop over the ledger, then build the broadcast, which fails when
        the index names no question. */
    method End() returns (out: EndOutcome)
      requires Valid()
      modifies this
      ensures Valid() && EndedQuestion() && out == Report()
    {
      acceptingAnswers := false;
      ScoreLedger();
      var q := Current();
      if q.None? {
        return Faulted;
      }
      var stats := CountAnswers(q.value, answers);
      var list := ListAnswers(players, answers);
      out := Ended(EndReport(qIndex, RevealAnswer(q.value), Leaderboard(players), stats, list));
    }

    /** The scoring loop of `endQuestion`: for every ledger entry in order, a
        correct one adds a point to its player when that player is still present. */
    method ScoreLedger()
      requires Valid()
      modifies this`players
      ensures Valid() && players == Scored(old(players), answers)
    {
      var i := 0;
      while i < |answers|
        invariant 0 <= i <= |answers|
        invariant players == Scored(old(players), answers[..i])
      {
        var e := answers[i];
        ScoringKeepsIndex(old(players), answers[..i], nameToId, Key);
        CreditIsPointUpdate(players, e);
        ScoredStep(old(players), answers, i);
        if e.correct {
          match IndexOf(players, e.id)
          case Some(k) =>
            players := players[k := players[k].(score := players[k].score + 1)];
          case None =>
        }
        i := i + 1;
      }
      assert answers[..|answers|] == answers;
      ScoringKeepsIndex(old(players), answers, nameToId, Key);
    }

    /** The body of `player:join` once the name is known to be free. */
    method AddPlayer(id: SocketId, name: string)
      requires Valid() && Key(name) != "" && Key(name) !in nameToId
      modifies this
      ensures Valid() && Joined(id, name)
    {
      var p := Player(id, Trim(name), 0);
      KeyOfTrim(name);
      JoinKeepsIndex(players, nameToId, Key, id, p.name, Key(name));
      SetPlayerKeepsUnique(players, p);
      players := SetPlayer(players, p);
      nameToId := nameToId[Key(name) := id];
    }

    /** The body of `player:answer` once the gate has passed. */
    method Record(e: Entry)
      requires Valid() && !HasEntry(answers, e.id)
      modifies this
      ensures Valid() && Recorded(e)
    {
      answers := answers + [e];
    }

    /** The player branch of `disconnect`: delete the record and the key derived
        from the stored name. */
    method Drop(id: SocketId) returns (key: string)
      requires Valid() && HasPlayer(players, id)
      modifies this
      ensures Valid() && Left(id, key)
      ensures key == Key(Find(old(players), id).value.name)
    {
      var p := Find(players, id).value;
      key := Key(p.name);
      DropKeepsIndex(players, nameToId, Key, id);
      players := RemovePlayer(players, id);
      nameToId := nameToId - {key};
    }
  }
}
