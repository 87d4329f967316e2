/**
 * The quiz document as the server reads it, and the pure helpers over one
 * question: judging an answer (`isCorrect`), the player-safe view
 * (`sanitizeQuestionForPlayers`) and the revealed answer (`revealAnswerPayload`).
 */
module QuizDocument {
  import opened Wrappers
  import opened Text

  /** A question: multiple choice with the index of the right option, or free
      text with its accepted answers. `time` is the optional limit in seconds. */
  datatype Question =
    | Mcq(prompt: string, options: seq<string>, answer: int, time: Option<int>)
    | FreeText(prompt: string, accepted: seq<string>, time: Option<int>)

  datatype Quiz = Quiz(questions: seq<Question>)

  /** What a player submits: an option index or a typed string. */
  datatype AnswerValue = Choice(index: int) | Typed(text: string)

  function DigitChar(d: nat): char
    requires d < 10
  {
    "0123456789"[d]
  }

  function Digits(n: nat): (r: string)
    ensures r != []
    decreases n
  {
    if n < 10 then [DigitChar(n)] else Digits(n / 10) + [DigitChar(n % 10)]
  }

  /** `String(value || '')`: the number 0 is falsy and becomes the empty string. */
  function AsText(v: AnswerValue): (r: string)
    ensures v.Typed? ==> r == v.text
    ensures v.Choice? ==> (r == "" <==> v.index == 0)
  {
    match v
    case Typed(s) => s
    case Choice(n) => if n == 0 then "" else if n < 0 then "-" + Digits(-n) else Digits(n)
  }

  /** True when the question declares a positive time limit, so that showing it
      arms the auto-end timer. */
  predicate ArmsTimer(q: Question) {
    q.time.Some? && q.time.value > 0
  }

  /** `isCorrect`: a multiple-choice answer is right exactly when it is the integer
      naming the right option; a text answer is right exactly when its key equals
      the key of some accepted answer. */
  function IsCorrect(q: Question, v: AnswerValue): (r: bool)
    ensures q.Mcq? ==> (r <==> v.Choice? && v.index == q.answer)
    ensures q.FreeText? ==> (r <==> exists a :: a in q.accepted && Key(a) == Key(AsText(v)))
  {
    match q
    case Mcq(_, _, answer, _) => v == Choice(answer)
    case FreeText(_, accepted, _) =>
      var keys := seq(|accepted|, i requires 0 <= i < |accepted| => Key(accepted[i]));
      assert forall a :: a in accepted ==> Key(a) in keys by {
        forall a | a in accepted ensures Key(a) in keys {
          var i :| 0 <= i < |accepted| && accepted[i] == a;
          assert keys[i] == Key(a);
        }
      }
      Key(AsText(v)) in keys
  }

  /** Two typed answers with the same key are judged alike. */
  lemma SameKeySameVerdict(q: Question, s: string, t: string)
    requires q.FreeText?
    requires Key(s) == Key(t)
    ensures IsCorrect(q, Typed(s)) == IsCorrect(q, Typed(t))
  {
  }

  /** A multiple-choice answer outside the options is never right when the stored
      right option is one of them: it is wrong, not an error. */
  lemma OutOfRangeChoiceIsWrong(q: Question, n: int)
    requires q.Mcq? && 0 <= q.answer < |q.options|
    requires !(0 <= n < |q.options|)
    ensures !IsCorrect(q, Choice(n))
  {
  }

  /** What players see of a question: never its answer or its accepted answers. */
  datatype PlayerView =
    | McqView(index: int, prompt: string, options: seq<string>, time: Option<int>)
    | TextView(index: int, prompt: string, time: Option<int>)

  /** `q.time || null`: a zero limit is shown as no limit. */
  function ShownTime(t: Option<int>): (r: Option<int>)
    ensures r.None? <==> t.None? || t == Some(0)
    ensures r.Some? ==> r == t
  {
    if t == Some(0) then None else t
  }

  /** `sanitizeQuestionForPlayers`. */
  function SanitizeForPlayers(q: Question, index: int): (v: PlayerView)
    ensures v.index == index && v.prompt == q.prompt && v.time == ShownTime(q.time)
    ensures v.McqView? <==> q.Mcq?
    ensures v.McqView? ==> v.options == q.options
  {
    match q
    case Mcq(prompt, options, _, time) => McqView(index, prompt, options, ShownTime(time))
    case FreeText(prompt, _, time) => TextView(index, prompt, ShownTime(time))
  }

  /** The player view does not depend on the answer: questions that differ only in
      their right option, or only in their accepted answers, look the same. */
  lemma ViewHidesAnswer(q: Question, index: int, answer: int, accepted: seq<string>)
    ensures q.Mcq? ==> SanitizeForPlayers(q.(answer := answer), index) == SanitizeForPlayers(q, index)
    ensures q.FreeText? ==> SanitizeForPlayers(q.(accepted := accepted), index) == SanitizeForPlayers(q, index)
  {
  }

  /** The answer revealed when a question ends. */
  datatype Reveal = McqAnswer(answerIndex: int) | TextAnswers(accepted: seq<string>)

  /** `revealAnswerPayload`. */
  function RevealAnswer(q: Question): (r: Reveal)
    ensures r.McqAnswer? <==> q.Mcq?
    ensures r.McqAnswer? ==> r.answerIndex == q.answer
    ensures r.TextAnswers? ==> r.accepted == q.accepted
  {
    match q
    case Mcq(_, _, answer, _) => McqAnswer(answer)
    case FreeText(_, accepted, _) => TextAnswers(accepted)
  }

  /** Everything revealed as the answer is judged correct when submitted. */
  lemma RevealedAnswersAreCorrect(q: Question)
    ensures RevealAnswer(q).McqAnswer? ==> IsCorrect(q, Choice(RevealAnswer(q).answerIndex))
    ensures RevealAnswer(q).TextAnswers? ==>
      forall a :: a in RevealAnswer(q).accepted ==> IsCorrect(q, Typed(a))
  {
  }

  /** The capital-city example: " PARIS " matches the accepted answers "Paris"
      and "paris ". */
  lemma PaddedUpperCaseTextIsCorrect()
    ensures IsCorrect(FreeText("Capital of France?", ["Paris", "paris "], None), Typed(" PARIS "))
  {
    var q := FreeText("Capital of France?", ["Paris", "paris "], None);
    PaddedParisKey();
    assert "Paris" in q.accepted;
  }

  lemma PaddedParisKey()
    ensures Key(" PARIS ") == Key("Paris")
  {
    assert Lower("PARIS") == Lower("Paris");
    assert " PARIS " == [' '] + ("PARIS" + [' ']);
    PaddedKeyChain("PARIS", "Paris");
  }

  /** A word padded with one space on each side has the key of any word that
      differs from it only in case. */
  lemma PaddedKeyChain(upper: string, mixed: string)
    requires Lower(upper) == Lower(mixed)
    ensures Key([' '] + (upper + [' '])) == Key(mixed)
  {
    KeyIgnoresPadding(upper + [' '], ' ');
    KeyIgnoresPadding(upper, ' ');
    KeyIgnoresCase(upper);
    KeyIgnoresCase(mixed);
  }
}
