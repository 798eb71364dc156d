/**
 * The Core-CS questionnaire page: the user picks topics (seven presets or
 * custom ones) and a question count, a simulated generation step builds the
 * questions, and the user walks through them with Previous/Next, typing one
 * answer per question, until the final submission.
 */
module CoreCsQuestionnaire {

  datatype Step = Setup | Loading | Questions | Submitted

  datatype Question = Question(id: nat, text: string)

  /** The topic chips offered on the setup screen. */
  const DefaultTopics: seq<string> := [
    "Operating Systems", "DBMS", "Computer Networks",
    "OOPS", "System Design", "Data Structures", "Algorithms"
  ]

  const InitialCount := 5

  /** The chips are seven distinct topics, and the initial selection is one of them. */
  lemma DefaultTopicsShape()
    ensures |DefaultTopics| == 7 && NoDuplicates(DefaultTopics)
    ensures "Operating Systems" in DefaultTopics
  {
  }

  /** The question counts offered by the three count buttons. */
  predicate IsCountPreset(n: int) { n == 5 || n == 10 || n == 15 }

  predicate NoDuplicates(s: seq<string>)
  {
    forall i, j :: 0 <= i < |s| && 0 <= j < |s| && i != j ==> s[i] != s[j]
  }

  // ---------------------------------------------------------------------------
  // Topic selection.

  /** `prev.filter(t => t !== topic)`: every occurrence of `t` removed, order kept. */
  function Without(s: seq<string>, t: string): (r: seq<string>)
    ensures forall u :: u in r <==> u in s && u != t
    ensures |r| <= |s|
    ensures t !in s ==> r == s
    ensures NoDuplicates(s) ==> NoDuplicates(r)
    ensures multiset(r) == multiset(s)[t := 0]
    decreases |s|
  {
    if |s| == 0 then []
    else
      assert s == [s[0]] + s[1..];
      if s[0] == t then Without(s[1..], t)
      else
        assert NoDuplicates(s) ==> NoDuplicates(s[1..]) && s[0] !in s[1..];
        NoDuplicatesCons(s[0], Without(s[1..], t));
        [s[0]] + Without(s[1..], t)
  }

  /** Filtering distributes over concatenation, so the kept topics stay in their order. */
  lemma {:induction false} WithoutConcat(a: seq<string>, b: seq<string>, t: string)
    ensures Without(a + b, t) == Without(a, t) + Without(b, t)
    decreases |a|
  {
    if |a| > 0 {
      assert (a + b)[1..] == a[1..] + b;
      WithoutConcat(a[1..], b, t);
    } else {
      assert a + b == b;
    }
  }

  lemma NoDuplicatesCons(x: string, s: seq<string>)
    ensures NoDuplicates([x] + s) <==> x !in s && NoDuplicates(s)
  {
    var xs := [x] + s;
    if x !in s && NoDuplicates(s) {
      forall i, j | 0 <= i < |xs| && 0 <= j < |xs| && i != j
        ensures xs[i] != xs[j]
      {
        if i > 0 && j > 0 {
          assert xs[i] == s[i - 1] && xs[j] == s[j - 1];
        }
      }
    }
    if NoDuplicates(xs) {
      forall i | 0 <= i < |s| ensures s[i] != x {
        assert xs[i + 1] == s[i] && xs[0] == x;
      }
      forall i, j | 0 <= i < |s| && 0 <= j < |s| && i != j ensures s[i] != s[j] {
        assert xs[i + 1] == s[i] && xs[j + 1] == s[j];
      }
    }
  }

  lemma NoDuplicatesSnoc(s: seq<string>, x: string)
    ensures NoDuplicates(s + [x]) <==> x !in s && NoDuplicates(s)
  {
    var xs := s + [x];
    if NoDuplicates(xs) {
      assert forall i :: 0 <= i < |s| ==> s[i] == xs[i];
      assert xs[|s|] == x;
    }
  }

  /** `toggleTopic`: remove the topic if it is selected, append it otherwise. */
  function Toggle(s: seq<string>, t: string): (r: seq<string>)
    ensures t in r <==> t !in s
    ensures forall u :: u != t ==> (u in r <==> u in s)
    ensures NoDuplicates(s) ==> NoDuplicates(r)
    ensures t !in s ==> r == s + [t]
  {
    NoDuplicatesSnoc(s, t);
    if t in s then Without(s, t) else s + [t]
  }

  /** Removing a topic that was just appended gives back the list before the append. */
  lemma {:induction false} WithoutAppended(s: seq<string>, t: string)
    requires t !in s
    ensures Without(s + [t], t) == s
    decreases |s|
  {
    if |s| == 0 {
      assert [t][1..] == [];
    } else {
      assert (s + [t])[1..] == s[1..] + [t];
      WithoutAppended(s[1..], t);
      assert [s[0]] + s[1..] == s;
    }
  }

  /**
   * Toggling a topic twice restores the selected set; when the topic was not
   * selected it restores the list exactly (when it was, it moves to the end).
   */
  lemma ToggleTwice(s: seq<string>, t: string)
    ensures forall u :: u in Toggle(Toggle(s, t), t) <==> u in s
    ensures t !in s ==> Toggle(Toggle(s, t), t) == s
  {
    if t !in s {
      WithoutAppended(s, t);
    }
  }

  // ---------------------------------------------------------------------------
  // `String.prototype.trim`.

  /** The characters `trim` removes: ECMAScript WhiteSpace and LineTerminator. */
  predicate IsJsWhitespace(c: char)
  {
    || '\U{9}' <= c <= '\U{D}' || c == '\U{20}' || c == '\U{A0}' || c == '\U{1680}'
    || '\U{2000}' <= c <= '\U{200A}' || c == '\U{2028}' || c == '\U{2029}'
    || c == '\U{202F}' || c == '\U{205F}' || c == '\U{3000}' || c == '\U{FEFF}'
  }

  predicate AllWhitespace(s: string) { forall i :: 0 <= i < |s| ==> IsJsWhitespace(s[i]) }

  /** Drops leading whitespace. */
  function TrimStart(s: string): (r: string)
    ensures |r| <= |s| && r == s[|s| - |r|..]
    ensures |r| > 0 ==> !IsJsWhitespace(r[0])
    ensures AllWhitespace(s[..|s| - |r|])
    decreases |s|
  {
    if |s| > 0 && IsJsWhitespace(s[0]) then TrimStart(s[1..]) else s
  }

  /** Drops trailing whitespace. */
  function TrimEnd(s: string): (r: string)
    ensures |r| <= |s| && r == s[..|r|]
    ensures |r| > 0 ==> !IsJsWhitespace(r[|r| - 1])
    ensures AllWhitespace(s[|r|..])
    decreases |s|
  {
    if |s| > 0 && IsJsWhitespace(s[|s| - 1]) then TrimEnd(s[..|s| - 1]) else s
  }

  /** `r` is the slice of `s` starting at `k`, with only whitespace around it. */
  predicate Interior(s: string, r: string, k: nat)
  {
    && k + |r| <= |s|
    && s[k..k + |r|] == r
    && AllWhitespace(s[..k])
    && AllWhitespace(s[k + |r|..])
  }

  /**
   * `trim`: the input without its leading and trailing whitespace; the
   * result has whitespace at neither end and is empty exactly when the input
   * is all whitespace.
   */
  function Trim(s: string): (r: string)
    ensures |r| > 0 ==> !IsJsWhitespace(r[0]) && !IsJsWhitespace(r[|r| - 1])
    ensures |r| == 0 <==> AllWhitespace(s)
    ensures exists k :: Interior(s, r, k)
  {
    TrimBlank(s);
    TrimInterior(s);
    TrimEnd(TrimStart(s))
  }

  /** Trimming leaves nothing exactly when the text is all whitespace. */
  lemma TrimBlank(s: string)
    ensures var a := TrimStart(s); var r := TrimEnd(a);
      && (|r| > 0 ==> !IsJsWhitespace(r[0]))
      && (|r| == 0 <==> AllWhitespace(s))
  {
    var a := TrimStart(s);
    var r := TrimEnd(a);
    var k := |s| - |a|;
    if |r| > 0 {
      assert r[0] == a[0] == s[k];
    } else {
      assert a == a[|r|..];
      assert |a| == 0;
      assert s[..k] == s;
    }
  }

  /** What trimming keeps is the slice after the leading whitespace and before the trailing. */
  lemma TrimInterior(s: string)
    ensures var a := TrimStart(s); Interior(s, TrimEnd(a), |s| - |a|)
  {
    var a := TrimStart(s);
    InteriorOfSuffix(s, a, TrimEnd(a), |s| - |a|);
  }

  /** A whitespace-free cut of a suffix whose dropped prefix is whitespace is an interior slice. */
  lemma InteriorOfSuffix(s: string, a: string, r: string, k: nat)
    requires k <= |s| && a == s[k..] && AllWhitespace(s[..k])
    requires |r| <= |a| && r == a[..|r|] && AllWhitespace(a[|r|..])
    ensures Interior(s, r, k)
  {
    assert s[k..k + |r|] == r;
    assert s[k + |r|..] == a[|r|..];
  }

  /** Trimming twice is trimming once. */
  lemma TrimIdempotent(s: string)
    ensures Trim(Trim(s)) == Trim(s)
  {
    var r := Trim(s);
    if |r| > 0 {
      assert TrimStart(r) == r;
      assert TrimEnd(r) == r;
    }
  }

  /** Whether a key press in the custom-topic box acts at all. */
  predicate AddsTopic(key: string, custom: string)
  {
    key == "Enter" && Trim(custom) != ""
  }

  /**
   * `addCustomTopic` exactly as written: the duplicate check looks at the RAW
   * input while the TRIMMED input is appended.  Result: (topics, input box).
   */
  function AddCustomTopicAsWritten(key: string, topics: seq<string>, custom: string): (r: (seq<string>, string))
    ensures |topics| <= |r.0| <= |topics| + 1 && r.0[..|topics|] == topics
    ensures |r.0| == |topics| + 1 <==> AddsTopic(key, custom) && custom !in topics
    ensures |r.0| > |topics| ==> r.0[|topics|] == Trim(custom)
    ensures r.1 == if AddsTopic(key, custom) then "" else custom
  {
    if AddsTopic(key, custom) then
      (if custom !in topics then topics + [Trim(custom)] else topics, "")
    else (topics, custom)
  }

  lemma TrimDbms()
    ensures Trim("DBMS ") == "DBMS"
  {
    var s := "DBMS ";
    assert !IsJsWhitespace(s[0]);
    assert TrimStart(s) == s;
    assert IsJsWhitespace(s[4]) && s[..4] == "DBMS";
    assert !IsJsWhitespace(s[3]);
    assert TrimEnd(s[..4]) == "DBMS";
  }

  /** A topic typed with a trailing space gets past the raw check and is selected twice. */
  lemma AsWrittenSelectsDuplicate()
    ensures NoDuplicates(["DBMS"])
    ensures AddCustomTopicAsWritten("Enter", ["DBMS"], "DBMS ").0 == ["DBMS", "DBMS"]
    ensures !NoDuplicates(AddCustomTopicAsWritten("Enter", ["DBMS"], "DBMS ").0)
  {
    TrimDbms();
    var r := AddCustomTopicAsWritten("Enter", ["DBMS"], "DBMS ").0;
    assert r[0] == r[1];
  }

  /**
   * `addCustomTopic` with the duplicate check applied to the text that is
   * actually appended.  On Enter with a non-blank input the box is cleared and
   * the trimmed text is appended unless it is already selected; any other key
   * press changes nothing.  A duplicate-free selection stays duplicate-free.
   */
  function AddCustomTopic(key: string, topics: seq<string>, custom: string): (r: (seq<string>, string))
    ensures NoDuplicates(topics) ==> NoDuplicates(r.0)
    ensures !(key == "Enter" && !AllWhitespace(custom)) ==> r == (topics, custom)
    ensures key == "Enter" && !AllWhitespace(custom) ==>
      && r.1 == ""
      && Trim(custom) in r.0
      && forall u :: u in r.0 <==> u in topics || u == Trim(custom)
    ensures |topics| <= |r.0| <= |topics| + 1 && r.0[..|topics|] == topics
  {
    var t := Trim(custom);
    NoDuplicatesSnoc(topics, t);
    if key == "Enter" && t != "" then
      (if t !in topics then topics + [t] else topics, "")
    else (topics, custom)
  }

  // ---------------------------------------------------------------------------
  // Question generation.

  const PromptHead := "Explain a core concept related to "

  /** The clause chosen by parity of the question index. */
  function Clause(i: nat): (c: string)
    ensures c == "resource allocation" || c == "concurrency"
    ensures c == "resource allocation" <==> i % 2 == 0
  {
    if i % 2 == 0 then "resource allocation" else "concurrency"
  }

  /** The generated text: opening words, the topic, then the clause as a question. */
  function QuestionText(topic: string, i: nat): (q: string)
    ensures |q| > |PromptHead| + |topic| + |Clause(i)|
    ensures q[..|PromptHead|] == PromptHead
    ensures q[|PromptHead|..|PromptHead| + |topic|] == topic
    ensures q[|q| - |Clause(i)| - 1..] == Clause(i) + "?"
  {
    PromptHead + topic + ". Specifically, how does it handle " + Clause(i) + "?"
  }

  /** The topic of question `i`: the selected topics taken in turn. */
  function TopicOf(topics: seq<string>, i: nat): (t: string)
    requires |topics| > 0
    ensures t in topics
  {
    topics[i % |topics|]
  }

  /**
   * The questions `handleGenerate` builds: exactly `count` of them, with ids
   * 1..count, question `i` about topic `i mod |topics|`.
   */
  function BuildQuestions(count: nat, topics: seq<string>): (qs: seq<Question>)
    requires |topics| > 0
    ensures |qs| == count
    ensures forall i :: 0 <= i < count ==> qs[i].id == i + 1
    ensures forall i :: 0 <= i < count ==> qs[i].text == QuestionText(TopicOf(topics, i), i)
  {
    seq(count, i requires 0 <= i < count => Question(i + 1, QuestionText(TopicOf(topics, i), i)))
  }

  /** Each question names one of the selected topics, right after the fixed opening words. */
  lemma QuestionNamesSelectedTopic(count: nat, topics: seq<string>, i: nat)
    requires |topics| > 0 && i < count
    ensures var text := BuildQuestions(count, topics)[i].text;
      var t := TopicOf(topics, i);
      t in topics && |text| > |PromptHead| + |t| && text[|PromptHead|..|PromptHead| + |t|] == t
  {
  }

  /** Question ids are distinct. */
  lemma QuestionIdsDistinct(count: nat, topics: seq<string>)
    requires |topics| > 0
    ensures forall i, j :: 0 <= i < j < count ==>
      BuildQuestions(count, topics)[i].id != BuildQuestions(count, topics)[j].id
  {
  }

  /** Topics repeat with period |topics|, and the clause alternates with the index. */
  lemma {:induction false} TopicsCycle(topics: seq<string>, i: nat)
    requires |topics| > 0
    ensures TopicOf(topics, i + |topics|) == TopicOf(topics, i)
    ensures Clause(i) != Clause(i + 1)
  {
    ModShift(i, |topics|);
  }

  /** `(i + n) mod n == i mod n`, by uniqueness of the remainder. */
  lemma ModShift(i: nat, n: nat)
    requires n > 0
    ensures (i + n) % n == i % n
  {
    var q, r := i / n, i % n;
    var q2, r2 := (i + n) / n, (i + n) % n;
    assert (q2 - q - 1) * n == r - r2;
    SmallMultipleIsZero(q2 - q - 1, n);
  }

  lemma SmallMultipleIsZero(k: int, n: int)
    requires n > 0 && -n < k * n < n
    ensures k == 0
  {
    if k > 0 {
      MultipleAtLeast(k, n);
    }
  }

  lemma {:induction false} MultipleAtLeast(k: nat, n: nat)
    requires k >= 1
    ensures k * n >= n
  {
    if k > 1 {
      MultipleAtLeast(k - 1, n);
      assert k * n == (k - 1) * n + n;
    }
  }

  /** With at least as many questions as topics, every selected topic gets a question. */
  lemma EveryTopicCovered(count: nat, topics: seq<string>, t: string)
    requires |topics| > 0 && count >= |topics| && t in topics
    ensures exists i :: 0 <= i < count && TopicOf(topics, i) == t
  {
    var k :| 0 <= k < |topics| && topics[k] == t;
    assert TopicOf(topics, k) == t;
  }

  /** The page's opening configuration generates five questions about operating systems. */
  lemma InitialConfigurationExample()
    ensures var qs := BuildQuestions(InitialCount, ["Operating Systems"]);
      |qs| == 5 && forall i :: 0 <= i < 5 ==> qs[i].text == QuestionText("Operating Systems", i)
  {
  }

  // ---------------------------------------------------------------------------
  // Navigation.

  /** Previous: `Math.max(0, prev - 1)`; stays within [0, n - 1]. */
  function PreviousIndex(idx: int, n: nat): (r: int)
    requires 0 <= idx < n
    ensures 0 <= r < n && r <= idx
    ensures idx > 0 ==> r == idx - 1
  {
    if idx - 1 > 0 then idx - 1 else 0
  }

  /** Next: `Math.min(n - 1, prev + 1)`; stays within [0, n - 1]. */
  function NextIndex(idx: int, n: nat): (r: int)
    requires 0 <= idx < n
    ensures 0 <= r < n && r >= idx
    ensures idx < n - 1 ==> r == idx + 1
  {
    if n - 1 < idx + 1 then n - 1 else idx + 1
  }

  // ---------------------------------------------------------------------------
  // The page's state.

  class Session {
    var step: Step
    var selectedTopics: seq<string>
    var customTopic: string
    var questionCount: nat
    var currentIdx: int
    var answers: map<int, string>
    var generatedQuestions: seq<Question>

    ghost predicate Valid()
      reads this
    {
      && IsCountPreset(questionCount)
      && NoDuplicates(selectedTopics)
      && (step == Setup || step == Loading ==> currentIdx == 0)
      && (step == Loading ==> |selectedTopics| > 0)
      && (step == Questions || step == Submitted ==>
            |generatedQuestions| == questionCount && 0 <= currentIdx < |generatedQuestions|)
    }

    /** The page as first rendered. */
    constructor ()
      ensures Valid()
      ensures step == Setup && selectedTopics == ["Operating Systems"] && customTopic == ""
      ensures questionCount == InitialCount && currentIdx == 0
      ensures answers == map[] && generatedQuestions == []
    {
      step := Setup;
      selectedTopics := ["Operating Systems"];
      customTopic := "";
      questionCount := InitialCount;
      currentIdx := 0;
      answers := map[];
      generatedQuestions := [];
    }

    /** A click on a topic chip. */
    method ToggleTopic(topic: string)
      requires Valid() && step == Setup && topic in DefaultTopics
      modifies this`selectedTopics
      ensures Valid()
      ensures selectedTopics == Toggle(old(selectedTopics), topic)
      ensures topic in selectedTopics <==> topic !in old(selectedTopics)
      ensures forall u :: u != topic ==> (u in selectedTopics <==> u in old(selectedTopics))
    {
      selectedTopics := if topic in selectedTopics then Without(selectedTopics, topic)
                        else selectedTopics + [topic];
    }

    /** Typing in the custom-topic box. */
    method SetCustomTopic(text: string)
      requires Valid() && step == Setup
      modifies this`customTopic
      ensures Valid() && customTopic == text
    {
      customTopic := text;
    }

    /** A key press in the custom-topic box (with the corrected duplicate check). */
    method AddCustomTopicKey(key: string)
      requires Valid() && step == Setup
      modifies this`selectedTopics, this`customTopic
      ensures Valid()
      ensures (selectedTopics, customTopic) == AddCustomTopic(key, old(selectedTopics), old(customTopic))
      ensures !AddsTopic(key, old(customTopic)) ==>
        selectedTopics == old(selectedTopics) && customTopic == old(customTopic)
    {
      if key == "Enter" && Trim(customTopic) != "" {
        var trimmed := Trim(customTopic);
        if trimmed !in selectedTopics {
          selectedTopics := selectedTopics + [trimmed];
        }
        customTopic := "";
      }
    }

    /** A click on one of the count buttons. */
    method SetQuestionCount(n: nat)
      requires Valid() && step == Setup && IsCountPreset(n)
      modifies this`questionCount
      ensures Valid() && questionCount == n
    {
      questionCount := n;
    }

    /** The generate button is disabled while no topic is selected. */
    predicate GenerateEnabled()
      reads this
    {
      |selectedTopics| > 0
    }

    /** The click on the generate button: the simulated generation starts. */
    method Generate()
      requires Valid() && step == Setup && GenerateEnabled()
      modifies this`step
      ensures Valid() && step == Loading
    {
      step := Loading;
    }

    /** The deferred end of generation: exactly `questionCount` questions are shown. */
    method CompleteGeneration()
      requires Valid() && step == Loading
      modifies this`generatedQuestions, this`step
      ensures Valid() && step == Questions
      ensures generatedQuestions == BuildQuestions(questionCount, selectedTopics)
      ensures |generatedQuestions| == questionCount
    {
      generatedQuestions := BuildQuestions(questionCount, selectedTopics);
      step := Questions;
    }

    /** A click on a question number in the navigator. */
    method SelectQuestion(idx: int)
      requires Valid() && step == Questions && 0 <= idx < |generatedQuestions|
      modifies this`currentIdx
      ensures Valid() && currentIdx == idx
    {
      currentIdx := idx;
    }

    /** Previous. */
    method Previous()
      requires Valid() && step == Questions
      modifies this`currentIdx
      ensures Valid() && 0 <= currentIdx < |generatedQuestions|
      ensures currentIdx == PreviousIndex(old(currentIdx), |generatedQuestions|)
    {
      currentIdx := if 0 > currentIdx - 1 then 0 else currentIdx - 1;
    }

    /** Next is offered on every question but the last, where Final Submission takes its place. */
    predicate OnLastQuestion()
      reads this
    {
      currentIdx == |generatedQuestions| - 1
    }

    /** Next. */
    method Next()
      requires Valid() && step == Questions && !OnLastQuestion()
      modifies this`currentIdx
      ensures Valid() && 0 <= currentIdx < |generatedQuestions|
      ensures currentIdx == NextIndex(old(currentIdx), |generatedQuestions|)
      ensures currentIdx == old(currentIdx) + 1
    {
      var last := |generatedQuestions| - 1;
      currentIdx := if last < currentIdx + 1 then last else currentIdx + 1;
    }

    /** Typing an answer: only the current question's entry changes. */
    method AnswerChange(val: string)
      requires Valid() && step == Questions
      modifies this`answers
      ensures Valid()
      ensures answers == old(answers)[currentIdx := val]
      ensures currentIdx in answers && answers[currentIdx] == val
      ensures forall k :: k != currentIdx ==>
        (k in answers <==> k in old(answers)) && (k in answers ==> answers[k] == old(answers)[k])
    {
      answers := answers[currentIdx := val];
    }

    /** Final Submission, offered on the last question only. */
    method FinalSubmit()
      requires Valid() && step == Questions && OnLastQuestion()
      modifies this`step
      ensures Valid() && step == Submitted
    {
      step := Submitted;
    }
  }
}
