/**
 * The answer ledger of the current question (`room.answers`, a Map from socket to
 * entry, kept here in insertion order) and what is derived from it when a
 * question ends: the points awarded, the answer statistics (`answerStats`) and
 * the host's per-player list (`hostAnswerList`).
 */
module AnswerLedger {
  import opened Wrappers
  import opened QuizDocument
  import opened Standings

  /** `{ submitted: true, value, correct, time }`, keyed by the answering socket. */
  datatype Entry = Entry(id: SocketId, value: AnswerValue, correct: bool, time: int)

  /** The ledger holds at most one entry per socket. */
  predicate OnePerSocket(l: seq<Entry>) {
    forall i, j :: 0 <= i < j < |l| ==> l[i].id != l[j].id
  }

  /** `answers.has(id)`. */
  predicate HasEntry(l: seq<Entry>, id: SocketId) {
    exists i :: 0 <= i < |l| && l[i].id == id
  }

  /** Recording an entry for a socket that has none keeps one entry per socket. */
  lemma RecordKeepsOnePerSocket(l: seq<Entry>, e: Entry)
    requires OnePerSocket(l) && !HasEntry(l, e.id)
    ensures OnePerSocket(l + [e])
  {
  }

  // ---- Scoring -------------------------------------------------------------

  /** Whether `id` has a correct entry. */
  predicate AnsweredCorrectly(l: seq<Entry>, id: SocketId) {
    exists i :: 0 <= i < |l| && l[i].id == id && l[i].correct
  }

  /** The number of correct entries for `id`. */
  function CorrectFor(l: seq<Entry>, id: SocketId): nat {
    if l == [] then 0
    else CorrectFor(l[..|l| - 1], id) + (if l[|l| - 1].id == id && l[|l| - 1].correct then 1 else 0)
  }

  /** One step of the scoring loop: a correct entry gives its player, if still
      present, one point. */
  function Credit(ps: seq<Player>, e: Entry): (r: seq<Player>)
    ensures |r| == |ps|
    ensures forall i :: 0 <= i < |ps| ==>
      r[i] == ps[i].(score := ps[i].score + if e.correct && ps[i].id == e.id then 1 else 0)
  {
    if e.correct then
      seq(|ps|, i requires 0 <= i < |ps| => if ps[i].id == e.id then ps[i].(score := ps[i].score + 1) else ps[i])
    else ps
  }

  /** The players after the scoring loop has run over the ledger in order: each
      one's score has grown by its number of correct entries, nothing else changes. */
  function Scored(ps: seq<Player>, l: seq<Entry>): (r: seq<Player>)
    ensures |r| == |ps|
    ensures forall i :: 0 <= i < |ps| ==> r[i] == ps[i].(score := ps[i].score + CorrectFor(l, ps[i].id))
  {
    if l == [] then ps else Credit(Scored(ps, l[..|l| - 1]), l[|l| - 1])
  }

  lemma {:induction false} CorrectForOne(l: seq<Entry>, id: SocketId)
    requires OnePerSocket(l)
    ensures CorrectFor(l, id) == if AnsweredCorrectly(l, id) then 1 else 0
  {
    if l != [] {
      var init := l[..|l| - 1];
      assert OnePerSocket(init);
      CorrectForOne(init, id);
      if AnsweredCorrectly(l, id) {
        var i :| 0 <= i < |l| && l[i].id == id && l[i].correct;
        if i < |l| - 1 {
          assert init[i] == l[i];
          assert l[|l| - 1].id != id;
        }
      }
      if AnsweredCorrectly(init, id) {
        var i :| 0 <= i < |init| && init[i].id == id && init[i].correct;
        assert l[i] == init[i];
      }
    }
  }

  /** Ending a question raises by exactly one the score of each present player
      with a correct entry and leaves every other score as it was. */
  lemma ScoringGivesOnePoint(ps: seq<Player>, l: seq<Entry>, i: nat)
    requires OnePerSocket(l) && i < |ps|
    ensures Scored(ps, l)[i].id == ps[i].id && Scored(ps, l)[i].name == ps[i].name
    ensures Scored(ps, l)[i].score == ps[i].score + if AnsweredCorrectly(l, ps[i].id) then 1 else 0
  {
    CorrectForOne(l, ps[i].id);
  }

  /** Scores never go down when a question ends. */
  lemma ScoringNeverLowers(ps: seq<Player>, l: seq<Entry>)
    ensures forall i :: 0 <= i < |ps| ==> Scored(ps, l)[i].score >= ps[i].score
  {
  }

  /** Nothing guards against ending the same question twice: scoring the same
      ledger again gives a correct answerer a second point. */
  lemma ScoringTwiceCountsTwice(ps: seq<Player>, l: seq<Entry>, i: nat)
    requires OnePerSocket(l) && i < |ps| && AnsweredCorrectly(l, ps[i].id)
    ensures Scored(Scored(ps, l), l)[i].score == ps[i].score + 2
    ensures Scored(Scored(ps, l), l) != Scored(ps, l)
  {
    CorrectForOne(l, ps[i].id);
  }

  // ---- Answer statistics ---------------------------------------------------

  /** The number of entries whose value is the integer `i`. */
  function ChoiceCount(l: seq<Entry>, i: int): nat {
    if l == [] then 0 else (if l[0].value == Choice(i) then 1 else 0) + ChoiceCount(l[1..], i)
  }

  /** The number of entries whose value is an integer in `[0, n)`. */
  function InRangeCount(l: seq<Entry>, n: nat): nat {
    if l == [] then 0
    else (if l[0].value.Choice? && 0 <= l[0].value.index < n then 1 else 0) + InRangeCount(l[1..], n)
  }

  /** The number of correct entries. */
  function CorrectCount(l: seq<Entry>): (n: nat)
    ensures n <= |l|
  {
    if l == [] then 0 else (if l[0].correct then 1 else 0) + CorrectCount(l[1..])
  }

  /** One step of the counting loop: only an integer inside the options counts. */
  function Bump(counts: seq<nat>, v: AnswerValue): (r: seq<nat>)
    ensures |r| == |counts|
    ensures forall i :: 0 <= i < |counts| ==> r[i] == counts[i] + if v == Choice(i) then 1 else 0
  {
    if v.Choice? && 0 <= v.index < |counts| then counts[v.index := counts[v.index] + 1] else counts
  }

  /** The counting loop over the ledger. */
  function Tally(l: seq<Entry>, counts: seq<nat>): (r: seq<nat>)
    ensures |r| == |counts|
    ensures forall i :: 0 <= i < |counts| ==> r[i] == counts[i] + ChoiceCount(l, i)
  {
    if l == [] then counts else Tally(l[1..], Bump(counts, l[0].value))
  }

  datatype Stats = McqStats(counts: seq<nat>) | TextStats(total: nat, correct: nat)

  /** `answerStats`: per-option counts of the entries naming that option, or the
      number of entries and of correct ones. */
  function AnswerStats(q: Question, l: seq<Entry>): (s: Stats)
    ensures q.Mcq? ==> (s.McqStats? && |s.counts| == |q.options|
                        && forall i :: 0 <= i < |q.options| ==> s.counts[i] == ChoiceCount(l, i))
    ensures q.FreeText? ==> s == TextStats(|l|, CorrectCount(l)) && s.correct <= s.total
  {
    match q
    case Mcq(_, options, _, _) => McqStats(Tally(l, seq(|options|, _ => 0)))
    case FreeText(_, _, _) => TextStats(|l|, CorrectCount(l))
  }

  lemma TallyStep(l: seq<Entry>, i: nat, counts: seq<nat>)
    requires i < |l|
    ensures Tally(l[i..], counts) == Tally(l[i + 1..], Bump(counts, l[i].value))
  {
    assert l[i..][1..] == l[i + 1..];
  }

  /** The computation of `answerStats`: the counting loop over the ledger's values
      for a multiple-choice question, the two counts for a free-text one. */
  method CountAnswers(q: Question, l: seq<Entry>) returns (s: Stats)
    ensures s == AnswerStats(q, l)
  {
    match q
    case FreeText(_, _, _) =>
      s := TextStats(|l|, CorrectCount(l));
    case Mcq(_, options, _, _) =>
      var counts: seq<nat> := seq(|options|, _ => 0);
      var i := 0;
      while i < |l|
        invariant 0 <= i <= |l|
        invariant Tally(l[i..], counts) == Tally(l, seq(|options|, _ => 0))
      {
        TallyStep(l, i, counts);
        var v := l[i].value;
        if v.Choice? && 0 <= v.index < |counts| {
          counts := counts[v.index := counts[v.index] + 1];
        }
        i := i + 1;
      }
      s := McqStats(counts);
  }

  function Sum(s: seq<nat>): nat {
    if s == [] then 0 else s[0] + Sum(s[1..])
  }

  lemma {:induction false} SumIncrement(s: seq<nat>, i: nat)
    requires i < |s|
    ensures Sum(s[i := s[i] + 1]) == Sum(s) + 1
  {
    if i > 0 {
      assert s[i := s[i] + 1][1..] == s[1..][i - 1 := s[i] + 1];
      SumIncrement(s[1..], i - 1);
    }
  }

  lemma {:induction false} SumTally(l: seq<Entry>, counts: seq<nat>)
    ensures Sum(Tally(l, counts)) == Sum(counts) + InRangeCount(l, |counts|)
  {
    if l != [] {
      var v := l[0].value;
      if v.Choice? && 0 <= v.index < |counts| {
        SumIncrement(counts, v.index);
      }
      SumTally(l[1..], Bump(counts, v));
    }
  }

  lemma {:induction false} SumZeros(n: nat)
    ensures Sum(seq(n, _ => 0)) == 0
  {
    if n > 0 {
      assert seq(n, _ => 0)[1..] == seq(n - 1, _ => 0);
      SumZeros(n - 1);
    }
  }

  lemma {:induction false} InRangeAtMostAll(l: seq<Entry>, n: nat)
    ensures InRangeCount(l, n) <= |l|
  {
    if l != [] { InRangeAtMostAll(l[1..], n); }
  }

  /** The option counts add up to the entries that name an existing option:
      non-integer and out-of-range answers are not counted anywhere. */
  lemma OptionCountsCoverInRangeAnswers(q: Question, l: seq<Entry>)
    requires q.Mcq?
    ensures Sum(AnswerStats(q, l).counts) == InRangeCount(l, |q.options|) <= |l|
  {
    SumTally(l, seq(|q.options|, _ => 0));
    SumZeros(|q.options|);
    InRangeAtMostAll(l, |q.options|);
  }

  // ---- The host's list -----------------------------------------------------

  /** What the host sees of one answer. */
  datatype HostRow = HostRow(name: string, value: AnswerValue, correct: bool)

  /** The host's row for an entry, or none if its player has left. */
  function RowFor(ps: seq<Player>, e: Entry): Option<HostRow> {
    match Find(ps, e.id)
    case None => None
    case Some(p) => Some(HostRow(p.name, e.value, e.correct))
  }

  /** `hostAnswerList` before its sort by name: the rows of the entries whose
      player is still present, in ledger order. */
  function HostAnswerList(ps: seq<Player>, l: seq<Entry>): (r: seq<HostRow>)
    ensures |r| <= |l|
  {
    if l == [] then []
    else
      var rest := HostAnswerList(ps, l[1..]);
      match RowFor(ps, l[0])
      case None => rest
      case Some(row) => [row] + rest
  }

  /** The host's list has a row for every entry whose player is still present,
      and no other rows. */
  lemma {:induction false} HostAnswerListRows(ps: seq<Player>, l: seq<Entry>)
    ensures forall row :: row in HostAnswerList(ps, l) ==> exists e :: e in l && RowFor(ps, e) == Some(row)
    ensures forall e :: e in l && RowFor(ps, e).Some? ==> RowFor(ps, e).value in HostAnswerList(ps, l)
  {
    if l != [] {
      HostAnswerListRows(ps, l[1..]);
      assert forall e :: e in l <==> e == l[0] || e in l[1..];
    }
  }

  lemma HostAnswerListStep(ps: seq<Player>, l: seq<Entry>, i: nat)
    requires i < |l|
    ensures HostAnswerList(ps, l[i..])
         == (if RowFor(ps, l[i]).Some? then [RowFor(ps, l[i]).value] else []) + HostAnswerList(ps, l[i + 1..])
  {
    assert l[i..][1..] == l[i + 1..];
  }

  /** The loop of `hostAnswerList`: walk the ledger in order and push a row for
      each entry whose player is still present. */
  method ListAnswers(ps: seq<Player>, l: seq<Entry>) returns (r: seq<HostRow>)
    ensures r == HostAnswerList(ps, l)
  {
    r := [];
    var i := 0;
    while i < |l|
      invariant 0 <= i <= |l|
      invariant r + HostAnswerList(ps, l[i..]) == HostAnswerList(ps, l)
    {
      HostAnswerListStep(ps, l, i);
      var row := RowFor(ps, l[i]);
      if row.Some? {
        r := r + [row.value];
      }
      i := i + 1;
    }
    assert l[|l|..] == [];
  }
}
