/**
 * The resume-based interview page: ten questions, each answered or not, a
 * thirty-minute countdown shown as `m:ss`, and a submit button whose deferred
 * completion marks the question that was current when it was clicked.
 */
module ResumeBasedInterview {
  import Countdown
  import opened Wrappers

  // ---------------------------------------------------------------------------
  // Decimal text, as produced by `Number.prototype.toString()` on a
  // non-negative integer and read back by a parser.

  predicate IsDigit(c: char) { '0' <= c <= '9' }

  /** Every character is a decimal digit (the empty string included). */
  predicate AllDigits(s: string) { forall i :: 0 <= i < |s| ==> IsDigit(s[i]) }

  /** A non-empty digit string without a superfluous leading zero. */
  predicate Canonical(s: string) { |s| > 0 && AllDigits(s) && (|s| > 1 ==> s[0] != '0') }

  function DigitChar(d: nat): (c: char)
    requires d < 10
    ensures IsDigit(c) && c as int - '0' as int == d
  {
    ('0' as int + d) as char
  }

  function DigitValue(c: char): nat
    requires IsDigit(c)
  {
    c as int - '0' as int
  }

  /** The number a digit string denotes (the empty string denotes 0). */
  function DecimalValue(s: string): nat
    requires AllDigits(s)
    decreases |s|
  {
    if |s| == 0 then 0 else DecimalValue(s[..|s| - 1]) * 10 + DigitValue(s[|s| - 1])
  }

  /** The decimal text of `n`, most significant digit first. */
  function NatToDecimal(n: nat): (s: string)
    ensures Canonical(s)
    ensures s[0] == '0' <==> n == 0
    decreases n
  {
    if n < 10 then [DigitChar(n)] else NatToDecimal(n / 10) + [DigitChar(n % 10)]
  }

  /** Reading back the decimal text of `n` gives `n`. */
  lemma {:induction false} DecimalRoundTrip(n: nat)
    ensures DecimalValue(NatToDecimal(n)) == n
    decreases n
  {
    if n >= 10 {
      var s := NatToDecimal(n);
      assert s[..|s| - 1] == NatToDecimal(n / 10);
      DecimalRoundTrip(n / 10);
    }
  }

  /** A canonical digit string is the decimal text of the number it denotes. */
  lemma {:induction false} DecimalCanonical(s: string)
    requires Canonical(s)
    ensures NatToDecimal(DecimalValue(s)) == s
    decreases |s|
  {
    if |s| > 1 {
      var p := s[..|s| - 1];
      assert Canonical(p) by {
        assert p[0] == s[0];
      }
      DecimalCanonical(p);
      var v := DecimalValue(p);
      assert DecimalValue(s) / 10 == v && DecimalValue(s) % 10 == DigitValue(s[|s| - 1]);
      assert s == p + [s[|s| - 1]];
    }
  }

  /** `s.padStart(width, fill)`. */
  function PadStart(s: string, width: nat, fill: char): (r: string)
    ensures |r| == if |s| >= width then |s| else width
    ensures r[|r| - |s|..] == s
    ensures forall i :: 0 <= i < |r| - |s| ==> r[i] == fill
  {
    if |s| >= width then s else seq(width - |s|, _ => fill) + s
  }

  // ---------------------------------------------------------------------------
  // The `m:ss` timer display.

  /**
   * `formatTime`: the whole minutes, a colon, and the remaining seconds padded
   * to two digits.  The two parts read back as minutes and seconds that add up
   * to the input, and the seconds part is always two digits below 60.
   */
  function FormatTime(seconds: nat): (t: string)
    ensures |t| >= 4 && t[|t| - 3] == ':'
    ensures Canonical(t[..|t| - 3]) && |t[|t| - 2..]| == 2 && AllDigits(t[|t| - 2..])
    ensures DecimalValue(t[|t| - 2..]) < 60
    ensures DecimalValue(t[..|t| - 3]) * 60 + DecimalValue(t[|t| - 2..]) == seconds
  {
    var mins := NatToDecimal(seconds / 60);
    var secs := PadStart(NatToDecimal(seconds % 60), 2, '0');
    TwoDigitValue(seconds % 60);
    var t := mins + ":" + secs;
    assert t[..|t| - 3] == mins;
    assert t[|t| - 2..] == secs;
    DecimalRoundTrip(seconds / 60);
    t
  }

  /** The padded seconds text has two digits and denotes the seconds. */
  lemma TwoDigitValue(x: nat)
    requires x < 60
    ensures var p := PadStart(NatToDecimal(x), 2, '0');
      |p| == 2 && AllDigits(p) && DecimalValue(p) == x
  {
    var p := PadStart(NatToDecimal(x), 2, '0');
    DecimalRoundTrip(x);
    if x < 10 {
      assert p == ['0', DigitChar(x)];
      assert p[..1] == ['0'];
    } else {
      assert p == NatToDecimal(x);
    }
  }

  /**
   * Reads an `m:ss` display back: canonical minutes, a colon, two digits of
   * seconds below 60.  Anything else is rejected.
   */
  function ParseTime(t: string): Option<nat>
  {
    if |t| >= 4 && t[|t| - 3] == ':' && Canonical(t[..|t| - 3])
       && AllDigits(t[|t| - 2..]) && DecimalValue(t[|t| - 2..]) < 60
    then Some(DecimalValue(t[..|t| - 3]) * 60 + DecimalValue(t[|t| - 2..]))
    else None
  }

  /** Parsing a formatted time gives back the seconds. */
  lemma FormatThenParse(seconds: nat)
    ensures ParseTime(FormatTime(seconds)) == Some(seconds)
  {
  }

  /** Two digits of seconds below 60 are exactly the padded text of their value. */
  lemma PaddedSecondsCanonical(secsText: string)
    requires |secsText| == 2 && AllDigits(secsText) && DecimalValue(secsText) < 60
    ensures PadStart(NatToDecimal(DecimalValue(secsText)), 2, '0') == secsText
  {
    var x := DecimalValue(secsText);
    assert secsText[..1] == [secsText[0]];
    assert x == DigitValue(secsText[0]) * 10 + DigitValue(secsText[1]);
    if x < 10 {
      assert secsText[0] == '0';
      assert PadStart(NatToDecimal(x), 2, '0') == ['0', DigitChar(x)];
    } else {
      assert Canonical(secsText);
      DecimalCanonical(secsText);
    }
  }

  lemma DivMod60(m: nat, x: nat)
    requires x < 60
    ensures (m * 60 + x) / 60 == m && (m * 60 + x) % 60 == x
  {
  }

  /** Every display the parser accepts is the formatting of what it parses to. */
  lemma ParseThenFormat(t: string, seconds: nat)
    requires ParseTime(t) == Some(seconds)
    ensures FormatTime(seconds) == t
  {
    var minsText, secsText := t[..|t| - 3], t[|t| - 2..];
    DivMod60(DecimalValue(minsText), DecimalValue(secsText));
    DecimalCanonical(minsText);
    PaddedSecondsCanonical(secsText);
    assert t == minsText + ":" + secsText;
  }

  /** The display at the start of the interview and when time has run out. */
  lemma FormatTimeExamples()
    ensures FormatTime(1800) == "30:00"
    ensures FormatTime(0) == "0:00"
  {
    assert NatToDecimal(30) == "30";
    assert PadStart(NatToDecimal(0), 2, '0') == "00";
  }

  // ---------------------------------------------------------------------------
  // Questions and their statuses.

  datatype Status = Answered | Unanswered

  datatype Question = Question(id: nat, status: Status)

  const QuestionCount := 10
  const TimeLimit := 1800
  const FirstCurrent := 5

  /** The mocked question list: ids 1..10, the first five already answered. */
  function InitialQuestions(): (qs: seq<Question>)
    ensures |qs| == QuestionCount
    ensures forall i :: 0 <= i < |qs| ==> qs[i].id == i + 1
    ensures forall i :: 0 <= i < |qs| ==> (qs[i].status == Answered <==> i < FirstCurrent)
  {
    seq(QuestionCount, i requires 0 <= i < QuestionCount =>
      Question(i + 1, if i < 5 then Answered else Unanswered))
  }

  /** How many questions are answered. */
  function AnsweredCount(qs: seq<Question>): nat
    decreases |qs|
  {
    if |qs| == 0 then 0
    else AnsweredCount(qs[..|qs| - 1]) + (if qs[|qs| - 1].status == Answered then 1 else 0)
  }

  /** Marking one question answered adds one to the count if it was not already answered. */
  lemma {:induction false} MarkAnsweredCount(qs: seq<Question>, i: nat)
    requires i < |qs|
    ensures AnsweredCount(qs[i := qs[i].(status := Answered)])
         == AnsweredCount(qs) + (if qs[i].status == Answered then 0 else 1)
    decreases |qs|
  {
    var qs' := qs[i := qs[i].(status := Answered)];
    if i < |qs| - 1 {
      assert qs'[..|qs'| - 1] == qs[..|qs| - 1][i := qs[i].(status := Answered)];
      MarkAnsweredCount(qs[..|qs| - 1], i);
    } else {
      assert qs'[..|qs'| - 1] == qs[..|qs| - 1];
    }
  }

  /** The count never exceeds the number of questions. */
  lemma {:induction false} AnsweredCountBound(qs: seq<Question>)
    ensures AnsweredCount(qs) <= |qs|
    decreases |qs|
  {
    if |qs| > 0 {
      AnsweredCountBound(qs[..|qs| - 1]);
    }
  }

  /** The page's state: one field per piece of component state. */
  class Interview {
    var secondsLeft: int
    var questions: array<Question>
    var currentIdx: int
    var answer: string
    var isSubmitting: bool
    /** The question index captured by the click whose completion is pending. */
    var pendingIdx: int

    ghost predicate Valid()
      reads this, questions
    {
      && questions.Length == QuestionCount
      && 0 <= secondsLeft <= TimeLimit
      && 0 <= currentIdx < QuestionCount
      && 0 <= pendingIdx < QuestionCount
      && forall i :: 0 <= i < QuestionCount ==> questions[i].id == i + 1
    }

    /** The page as first rendered: 30 minutes left, on question 6 of 10. */
    constructor ()
      ensures Valid() && fresh(questions)
      ensures secondsLeft == TimeLimit && currentIdx == FirstCurrent
      ensures questions[..] == InitialQuestions()
      ensures answer == "" && !isSubmitting
    {
      secondsLeft := TimeLimit;
      questions := new Question[QuestionCount](i requires 0 <= i < QuestionCount =>
        Question(i + 1, if i < 5 then Answered else Unanswered));
      currentIdx := FirstCurrent;
      pendingIdx := FirstCurrent;
      answer := "";
      isSubmitting := false;
    }

    /** One tick of the interval: a second less, never below zero. */
    method Tick()
      requires Valid()
      modifies this`secondsLeft
      ensures Valid()
      ensures secondsLeft == Countdown.Tick(old(secondsLeft))
    {
      secondsLeft := if secondsLeft > 0 then secondsLeft - 1 else 0;
    }

    /** Whether the submit button can be clicked (it is disabled while submitting). */
    predicate SubmitEnabled()
      reads this
    {
      !isSubmitting
    }

    /** The click on "Submit Answer": the completion is now pending for the current question. */
    method Submit()
      requires Valid() && SubmitEnabled()
      modifies this`isSubmitting, this`pendingIdx
      ensures Valid() && isSubmitting && !SubmitEnabled()
      ensures pendingIdx == currentIdx
    {
      isSubmitting := true;
      pendingIdx := currentIdx;
    }

    /**
     * The deferred completion of a submit: only the captured question becomes
     * answered, every other status is kept, and the button is enabled again.
     */
    method CompleteSubmit()
      requires Valid() && isSubmitting
      modifies this`isSubmitting, questions
      ensures Valid() && !isSubmitting && SubmitEnabled()
      ensures questions[..] == old(questions[..])[pendingIdx := old(questions[pendingIdx]).(status := Answered)]
      ensures questions[pendingIdx].status == Answered
      ensures forall i :: 0 <= i < QuestionCount && i != pendingIdx ==> questions[i] == old(questions[i])
      ensures forall i :: 0 <= i < QuestionCount && old(questions[i]).status == Answered ==> questions[i].status == Answered
      ensures AnsweredCount(questions[..]) >= AnsweredCount(old(questions[..]))
    {
      MarkAnsweredCount(questions[..], pendingIdx);
      questions[pendingIdx] := questions[pendingIdx].(status := Answered);
      isSubmitting := false;
    }

    /** A click on a question number makes it current; no status changes. */
    method SelectQuestion(index: int)
      requires Valid() && 0 <= index < QuestionCount
      modifies this`currentIdx
      ensures Valid() && currentIdx == index
    {
      currentIdx := index;
    }

    /** Typing in the answer box. */
    method SetAnswer(text: string)
      requires Valid()
      modifies this`answer
      ensures Valid() && answer == text
    {
      answer := text;
    }
  }

  /** Among the first `k` mocked questions, `min(k, 5)` are answered. */
  lemma {:induction false} InitialPrefixCount(k: nat)
    requires k <= QuestionCount
    ensures AnsweredCount(InitialQuestions()[..k]) == if k < 5 then k else 5
  {
    if k > 0 {
      InitialPrefixCount(k - 1);
      assert InitialQuestions()[..k][..k - 1] == InitialQuestions()[..k - 1];
    }
  }

  /** The first render shows five answered questions out of ten. */
  lemma InitialAnsweredCount()
    ensures AnsweredCount(InitialQuestions()) == 5
  {
    InitialPrefixCount(QuestionCount);
    assert InitialQuestions()[..QuestionCount] == InitialQuestions();
  }
}
