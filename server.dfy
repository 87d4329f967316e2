/**
 * The room registry `rooms` and the socket handlers of the connection callback.
 * Each handler is one state change of the registry or of one room; handlers
 * never overlap. Broadcasts are returned as values; delivery is not modelled.
 */
module Orchestrator {
  import opened Wrappers
  import opened Text
  import opened RoomCodes
  import opened QuizDocument
  import opened Standings
  import opened AnswerLedger
  import opened Rooms

  /** The pending auto-end callback: the code and the room object it captured. */
  datatype Timer = Timer(code: string, room: Room, delayMs: int)

  /** `room:meta`. */
  datatype Meta = Meta(title: string, questionCount: nat)

  /** What `host:next` broadcasts: `quiz:ended`, or `q:show` / `host:q:show` and
      the timer it arms. */
  datatype NextOutcome =
    | NotAdvanced
    | QuizEnded(leaderboard: seq<Standing>)
    | Shown(forPlayers: PlayerView, forHost: Question, index: int, timer: Option<Timer>)

  datatype JoinError = RoomNotFound | InvalidName | NameTaken

  /** `player:joined` to the player and `room:players` to the room. */
  datatype JoinAck = JoinAck(code: string, title: string, roster: seq<Row>)

  /** `player:answer:received` and the host's `host:answer:update` counts. */
  datatype AnswerAck = AnswerAck(correct: bool, count: nat, total: nat)

  /** `room:closed` after a host leaves, `room:players` after a player leaves. */
  datatype DisconnectOutcome = NoRoom | RoomClosed(code: string) | PlayerLeft(code: string, roster: seq<Row>)

  predicate UniqueCodes(codes: seq<string>) {
    forall i, j :: 0 <= i < j < |codes| ==> codes[i] != codes[j]
  }

  /** Deleting the code at position `i` keeps the codes distinct and removes
      exactly that code. */
  lemma RemoveCode(codes: seq<string>, i: nat)
    requires UniqueCodes(codes) && i < |codes|
    ensures UniqueCodes(codes[..i] + codes[i + 1..])
    ensures forall d :: d in codes[..i] + codes[i + 1..] <==> d in codes && d != codes[i]
  {
    var rest := codes[..i] + codes[i + 1..];
    assert forall j :: 0 <= j < |rest| ==> rest[j] == if j < i then codes[j] else codes[j + 1];
    forall d | d in codes && d != codes[i] ensures d in rest {
      var j :| 0 <= j < |codes| && codes[j] == d;
      if j < i {
        assert rest[j] == d;
      } else {
        assert rest[j - 1] == d;
      }
    }
  }

  /** Appending a code not yet present keeps the codes distinct. */
  lemma AppendCode(codes: seq<string>, c: string)
    requires UniqueCodes(codes) && c !in codes
    ensures UniqueCodes(codes + [c])
    ensures forall d :: d in codes + [c] <==> d in codes || d == c
  {
  }

  class Server {
    /** The live codes in the order the rooms were created (the Map's order). */
    var codes: seq<string>
    var rooms: map<string, Room>
    /** `socket.data.roomCode`, set when a socket joins. */
    var roomOf: map<SocketId, string>

    ghost predicate Valid()
      reads this, rooms.Values
    {
      && UniqueCodes(codes)
      && (forall c :: c in rooms <==> c in codes)
      && (forall c :: c in rooms ==> IsRoomCode(c))
      && (forall c, d :: c in rooms && d in rooms && c != d ==> rooms[c] != rooms[d])
      && (forall c :: c in rooms ==> rooms[c].Valid())
    }

    constructor ()
      ensures Valid() && codes == [] && rooms == map[] && roomOf == map[]
    {
      codes := [];
      rooms := map[];
      roomOf := map[];
    }

    /** The room a handler for `code` may change. */
    function RoomAt(code: string): set<Room>
      reads this
    {
      if code in rooms then {rooms[code]} else {}
    }

    /** The room the sender's answer goes to. */
    function RoomOfSender(id: SocketId): set<Room>
      reads this
    {
      if id in roomOf then RoomAt(roomOf[id]) else {}
    }

    predicate IsHost(sender: SocketId, code: string)
      reads this, rooms.Values
    {
      code in rooms && rooms[code].hostId == sender
    }

    /** `host:createRoom`: a fresh code from the draws, and a new empty room under
        it with the sender as host; no other room changes. */
    method CreateRoom(sender: SocketId, draws: seq<seq<int>>) returns (code: string)
      requires Valid()
      requires forall i :: 0 <= i < |draws| ==> IsDraw(draws[i])
      requires exists i :: 0 <= i < |draws| && Spell(draws[i]) !in rooms
      modifies this
      ensures Valid()
      ensures IsRoomCode(code) && code !in old(rooms)
      ensures exists k :: (0 <= k < |draws| && code == Spell(draws[k])
                           && forall j :: 0 <= j < k ==> Spell(draws[j]) in old(rooms))
      ensures codes == old(codes) + [code] && rooms.Keys == old(rooms).Keys + {code}
      ensures forall c :: c in old(rooms) ==> rooms[c] == old(rooms[c])
      ensures fresh(rooms[code]) && rooms[code].hostId == sender
      ensures rooms[code].Valid() && rooms[code].quiz == None && rooms[code].qIndex == -1
      ensures !rooms[code].acceptingAnswers && rooms[code].answers == [] && rooms[code].players == []
      ensures !rooms[code].started && rooms[code].title == DefaultTitle && rooms[code].nameToId == map[]
      ensures roomOf == old(roomOf)
    {
      code := MakeCode(rooms.Keys, draws);
      Open(code, sender);
    }

    /** `rooms.set(code, …)` with a new room hosted by `host`. */
    method Open(code: string, host: SocketId)
      requires Valid() && IsRoomCode(code) && code !in rooms
      modifies this
      ensures Valid()
      ensures codes == old(codes) + [code] && rooms.Keys == old(rooms).Keys + {code}
      ensures forall c :: c in old(rooms) ==> rooms[c] == old(rooms[c])
      ensures fresh(rooms[code]) && rooms[code].hostId == host
      ensures rooms[code].Valid() && rooms[code].quiz == None && rooms[code].qIndex == -1
      ensures !rooms[code].acceptingAnswers && rooms[code].answers == [] && rooms[code].players == []
      ensures !rooms[code].started && rooms[code].title == DefaultTitle && rooms[code].nameToId == map[]
      ensures roomOf == old(roomOf)
    {
      AppendCode(codes, code);
      var r := new Room(host);
      rooms := rooms[code := r];
      codes := codes + [code];
    }

    /** `host:setQuiz`: only the host of a live room may load a quiz. */
    method SetQuiz(sender: SocketId, code: string, title: string, quiz: Quiz) returns (meta: Option<Meta>)
      requires Valid()
      modifies RoomAt(code)
      ensures Valid()
      ensures !old(IsHost(sender, code)) ==> meta == None && (code in rooms ==> unchanged(rooms[code]))
      ensures old(IsHost(sender, code)) ==>
        rooms[code].LoadedQuiz(title, quiz) && meta == Some(Meta(rooms[code].title, |quiz.questions|))
    {
      if code !in rooms || rooms[code].hostId != sender {
        return None;
      }
      var r := rooms[code];
      r.Load(title, quiz);
      meta := Some(Meta(r.title, |quiz.questions|));
    }

    /** `host:start`: only the host, and only once a quiz is loaded. */
    method Start(sender: SocketId, code: string) returns (started: bool)
      requires Valid()
      modifies RoomAt(code)
      ensures Valid()
      ensures started <==> old(IsHost(sender, code) && rooms[code].quiz.Some?)
      ensures !started ==> code in rooms ==> unchanged(rooms[code])
      ensures started ==> rooms[code].Began()
    {
      if code !in rooms || rooms[code].hostId != sender || rooms[code].quiz.None? {
        return false;
      }
      rooms[code].Begin();
      started := true;
    }

    /** `host:next`: only the host, once a quiz is loaded; whether the room was
        started is not checked. A question with a positive time limit arms a timer
        that captures the room object. */
    method Next(sender: SocketId, code: string) returns (out: NextOutcome)
      requires Valid()
      modifies RoomAt(code)
      ensures Valid()
      ensures out.NotAdvanced? <==> !old(IsHost(sender, code) && rooms[code].quiz.Some?)
      ensures out.NotAdvanced? ==> code in rooms ==> unchanged(rooms[code])
      ensures !out.NotAdvanced? ==> rooms[code].quiz.Some? && rooms[code].Advanced()
      ensures out.QuizEnded? ==> out.leaderboard == Leaderboard(rooms[code].players)
      ensures out.Shown? <==> !out.NotAdvanced? && rooms[code].Current().Some?
      ensures out.Shown? ==>
        var r := rooms[code];
        var q := r.Current().value;
        && out.forPlayers == SanitizeForPlayers(q, r.qIndex) && out.forHost == q && out.index == r.qIndex
        && out.timer == if ArmsTimer(q) then Some(Timer(code, r, q.time.value * 1000)) else None
    {
      if code !in rooms || rooms[code].hostId != sender || rooms[code].quiz.None? {
        return NotAdvanced;
      }
      var r := rooms[code];
      var current := r.Advance();
      match current
      case None =>
        out := QuizEnded(Leaderboard(r.players));
      case Some(q) =>
        var timer := if ArmsTimer(q) then Some(Timer(code, r, q.time.value * 1000)) else None;
        out := Shown(SanitizeForPlayers(q, r.qIndex), q, r.qIndex, timer);
    }

    /** `endQuestion(code)`: nothing unless the room exists and has a quiz; there is
        no guard against ending the same question twice. */
    method EndQuestion(code: string) returns (out: EndOutcome)
      requires Valid()
      modifies RoomAt(code)
      ensures Valid()
      ensures out.NotEnded? <==> !old(code in rooms && rooms[code].quiz.Some?)
      ensures out.NotEnded? ==> code in rooms ==> unchanged(rooms[code])
      ensures !out.NotEnded? ==> rooms[code].EndedQuestion() && out == rooms[code].Report()
    {
      if code !in rooms || rooms[code].quiz.None? {
        return NotEnded;
      }
      out := rooms[code].End();
    }

    /** `host:endQuestion`: only the host; then `endQuestion`. */
    method HostEndQuestion(sender: SocketId, code: string) returns (out: EndOutcome)
      requires Valid()
      modifies RoomAt(code)
      ensures Valid()
      ensures out.NotEnded? <==> !old(IsHost(sender, code) && rooms[code].quiz.Some?)
      ensures out.NotEnded? ==> code in rooms ==> unchanged(rooms[code])
      ensures !out.NotEnded? ==> rooms[code].EndedQuestion() && out == rooms[code].Report()
    {
      if !IsHost(sender, code) {
        return NotEnded;
      }
      out := EndQuestion(code);
    }

    /** The `setTimeout` callback armed by `host:next`: it ends the question of the
        room now under the code when that room's index equals the index of the
        captured room object and answers are still accepted. */
    method FireTimer(t: Timer) returns (out: EndOutcome)
      requires Valid()
      modifies RoomAt(t.code)
      ensures Valid()
      ensures out.NotEnded? <==>
        !old(t.code in rooms && rooms[t.code].qIndex == t.room.qIndex && rooms[t.code].acceptingAnswers)
      ensures out.NotEnded? ==> t.code in rooms ==> unchanged(rooms[t.code])
      ensures !out.NotEnded? ==> rooms[t.code].EndedQuestion() && out == rooms[t.code].Report()
      // While the captured object is still the live room, the index test compares
      // that object with itself: only the gate decides.
      ensures old(t.code in rooms && rooms[t.code] == t.room) ==>
        (!out.NotEnded? <==> old(t.room.acceptingAnswers))
    {
      if t.code !in rooms || rooms[t.code].qIndex != t.room.qIndex || !rooms[t.code].acceptingAnswers {
        return NotEnded;
      }
      out := EndQuestion(t.code);
    }

    /** `player:join`: the checks run in order (room, empty key, key taken), and an
        error changes nothing. On success the player record is set under the
        socket (a second join of the same socket replaces its record, score 0, and
        leaves its earlier key claimed) and the socket remembers the room. */
    method Join(sender: SocketId, code: string, name: string) returns (res: Result<JoinAck, JoinError>)
      requires Valid()
      modifies this, RoomAt(code)
      ensures Valid()
      ensures rooms == old(rooms) && codes == old(codes)
      ensures res == Err(RoomNotFound) <==> code !in rooms
      ensures res == Err(InvalidName) <==> code in rooms && Key(name) == ""
      ensures res == Err(NameTaken) <==> code in rooms && Key(name) != "" && Key(name) in old(rooms[code].nameToId)
      ensures res.Ok? <==> code in rooms && Key(name) != "" && Key(name) !in old(rooms[code].nameToId)
      ensures res.Err? ==> roomOf == old(roomOf) && (code in rooms ==> unchanged(rooms[code]))
      ensures res.Ok? ==>
        && rooms[code].Joined(sender, name)
        && roomOf == old(roomOf)[sender := code]
        && res.value == JoinAck(code, rooms[code].title, Roster(rooms[code].players))
    {
      if code !in rooms {
        return Err(RoomNotFound);
      }
      var r := rooms[code];
      if Key(name) == "" {
        return Err(InvalidName);
      }
      if Key(name) in r.nameToId {
        return Err(NameTaken);
      }
      r.AddPlayer(sender, name);
      roomOf := roomOf[sender := code];
      res := Ok(JoinAck(code, r.title, Roster(r.players)));
    }

    /** Whether `player:answer` from `sender` passes its gate: the socket's room
        exists, accepts answers, names an existing question, and holds no entry
        from this socket yet. */
    predicate AnswerGate(sender: SocketId)
      reads this, rooms.Values
    {
      && sender in roomOf && roomOf[sender] in rooms
      && rooms[roomOf[sender]].acceptingAnswers
      && rooms[roomOf[sender]].Current().Some?
      && !HasEntry(rooms[roomOf[sender]].answers, sender)
    }

    /** `player:answer`: past the gate, exactly one entry is appended, graded
        against the current question and stamped with `now` (`Date.now()`). */
    method Answer(sender: SocketId, value: AnswerValue, now: int) returns (ack: Option<AnswerAck>)
      requires Valid()
      modifies RoomOfSender(sender)
      ensures Valid()
      ensures ack.Some? <==> old(AnswerGate(sender))
      ensures ack.None? ==> sender in roomOf && roomOf[sender] in rooms ==> unchanged(rooms[roomOf[sender]])
      ensures ack.Some? ==>
        var r := rooms[roomOf[sender]];
        var q := old(r.Current()).value;
        && r.Recorded(Entry(sender, value, IsCorrect(q, value), now))
        && ack.value == AnswerAck(IsCorrect(q, value), |r.answers|, |r.players|)
    {
      if sender !in roomOf || roomOf[sender] !in rooms {
        return None;
      }
      var r := rooms[roomOf[sender]];
      if !r.acceptingAnswers {
        return None;
      }
      match r.Current()
      case None =>
        return None;
      case Some(q) =>
        if HasEntry(r.answers, sender) {
          return None;
        }
        var correct := IsCorrect(q, value);
        r.Record(Entry(sender, value, correct, now));
        ack := Some(AnswerAck(correct, |r.answers|, |r.players|));
    }

    /** `rooms.delete(code)` for the code at position `i`. */
    method CloseRoom(i: nat)
      requires Valid() && i < |codes|
      modifies this
      ensures Valid()
      ensures codes == old(codes)[..i] + old(codes)[i + 1..]
      ensures rooms == old(rooms) - {old(codes)[i]}
      ensures roomOf == old(roomOf)
    {
      var c := codes[i];
      RemoveCode(codes, i);
      rooms := rooms - {c};
      codes := codes[..i] + codes[i + 1..];
    }

    /** The player branch of `disconnect` for the room under `c`; returns the new
        `room:players` roster. */
    method Leave(c: string, sender: SocketId) returns (roster: seq<Row>)
      requires Valid() && c in rooms && HasPlayer(rooms[c].players, sender)
      modifies rooms[c]
      ensures Valid()
      ensures rooms[c].Left(sender, Key(old(Find(rooms[c].players, sender)).value.name))
      ensures roster == Roster(rooms[c].players)
    {
      var key := rooms[c].Drop(sender);
      roster := Roster(rooms[c].players);
    }

    /** Whether `sender` is the host or a player of `r`: what the `disconnect`
        scan stops at. */
    predicate Involves(r: Room, sender: SocketId)
      reads r
    {
      r.hostId == sender || HasPlayer(r.players, sender)
    }

    /** The `for … of rooms.entries()` scan of `disconnect`: the position of the
        first room, in creation order, that `sender` hosts or plays in, or the
        number of rooms when there is none. */
    method Scan(sender: SocketId) returns (i: nat)
      requires Valid()
      ensures i <= |codes|
      ensures forall j :: 0 <= j < i ==> !Involves(rooms[codes[j]], sender)
      ensures i < |codes| ==> Involves(rooms[codes[i]], sender)
    {
      i := 0;
      while i < |codes| && !Involves(rooms[codes[i]], sender)
        invariant 0 <= i <= |codes|
        invariant forall j :: 0 <= j < i ==> !Involves(rooms[codes[j]], sender)
      {
        i := i + 1;
      }
    }

    /** `disconnect`: scan the rooms in creation order and stop at the first one
        the socket hosts (that room is deleted) or plays in (its record and the key
        of its stored name are removed). `at` is the position the scan stopped at.
        `socket.data` is left as it is. */
    method Disconnect(sender: SocketId) returns (out: DisconnectOutcome, ghost at: nat)
      requires Valid()
      modifies this, rooms.Values
      ensures Valid()
      ensures roomOf == old(roomOf)
      ensures at <= |old(codes)|
      ensures old(forall j :: 0 <= j < at ==> !Involves(rooms[codes[j]], sender))
      ensures out.NoRoom? <==> at == |old(codes)|
      ensures out.NoRoom? ==> codes == old(codes) && rooms == old(rooms)
      ensures out.NoRoom? ==> forall c :: c in rooms ==> unchanged(rooms[c])
      ensures !out.NoRoom? ==>
        && out.code == old(codes)[at]
        && old(Involves(rooms[codes[at]], sender))
        && (out.RoomClosed? <==> old(rooms[out.code].hostId) == sender)
        && (forall c :: c in old(rooms) && c != out.code ==>
              c in rooms && rooms[c] == old(rooms[c]) && unchanged(old(rooms[c])))
      ensures out.RoomClosed? ==>
        && codes == old(codes)[..at] + old(codes)[at + 1..]
        && rooms == old(rooms) - {out.code}
      ensures out.PlayerLeft? ==>
        && codes == old(codes) && rooms == old(rooms)
        && rooms[out.code].Left(sender, Key(old(Find(rooms[out.code].players, sender)).value.name))
        && out.roster == Roster(rooms[out.code].players)
    {
      var i := Scan(sender);
      at := i;
      if i == |codes| {
        return NoRoom, i;
      }
      var c := codes[i];
      var r := rooms[c];
      if r.hostId == sender {
        CloseRoom(i);
        out := RoomClosed(c);
      } else {
        var roster := Leave(c, sender);
        out := PlayerLeft(c, roster);
      }
    }
  }
}
