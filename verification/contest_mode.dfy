/**
 * The contest page: an overview, a matrix of five rounds (four technical
 * rounds and an HR voice round that stays locked until the four technical
 * rounds are completed), a technical-round screen, an HR screen with a
 * two-minute audio recording, the final score and the leaderboard.
 */
module ContestMode {
  import Countdown
  import ResumeBasedInterview

  /** The page's `step`: overview, rounds, inRound, hrRound, completed, leaderboard. */
  datatype Step = Overview | RoundList | InRound | HrRound | Finished | Leaderboard

  /** A round's status: not_started, locked or completed. */
  datatype Status = NotStarted | Locked | Completed

  datatype Round = Round(id: nat, title: string, desc: string, status: Status)

  const RoundCount := 5
  /** Position of the HR voice round, the last one. */
  const HrIdx := 4
  /** The recording countdown's starting value, in seconds. */
  const RecordingLimit := 120

  const InitialRounds: seq<Round> := [
    Round(1, "Resume Round", "Data extraction of your background.", NotStarted),
    Round(2, "GitHub Round", "Neural analysis of code contributions.", NotStarted),
    Round(3, "Coding Round", "Algorithmic logic under pressure.", NotStarted),
    Round(4, "Core CS Round", "Diagnostic of CS fundamental nodes.", NotStarted),
    Round(5, "HR Voice Round", "Communication & behavior evaluation.", Locked)
  ]

  // ---------------------------------------------------------------------------
  // `String.prototype.includes`, used to recognise the HR round by its title.

  predicate OccursAt(s: string, sub: string, k: nat)
  {
    k + |sub| <= |s| && s[k..k + |sub|] == sub
  }

  /** Compares `sub[m..]` with the characters of `s` from `k + m` on, one at a time. */
  function MatchFrom(s: string, sub: string, k: nat, m: nat): bool
    requires m <= |sub|
    decreases |sub| - m
  {
    if m == |sub| then k + |sub| <= |s|
    else k + m < |s| && s[k + m] == sub[m] && MatchFrom(s, sub, k, m + 1)
  }

  /** Whether `sub` occurs in `s` at some position from `k` on. */
  function ContainsFrom(s: string, sub: string, k: nat): bool
    decreases |s| - k
  {
    if k + |sub| > |s| then false
    else MatchFrom(s, sub, k, 0) || ContainsFrom(s, sub, k + 1)
  }

  /** The character-by-character comparison agrees with comparing the slice. */
  lemma {:induction false} MatchFromSlice(s: string, sub: string, k: nat, m: nat)
    requires m <= |sub|
    ensures MatchFrom(s, sub, k, m) <==> k + |sub| <= |s| && s[k + m..k + |sub|] == sub[m..]
    decreases |sub| - m
  {
    if m < |sub| {
      MatchFromSlice(s, sub, k, m + 1);
      if k + |sub| <= |s| {
        assert s[k + m..k + |sub|] == [s[k + m]] + s[k + m + 1..k + |sub|];
        assert sub[m..] == [sub[m]] + sub[m + 1..];
      }
    }
  }

  /** The scan finds an occurrence exactly when there is one from `k` on. */
  lemma {:induction false} ContainsFromOccurs(s: string, sub: string, k: nat)
    ensures ContainsFrom(s, sub, k) <==> exists j :: k <= j && OccursAt(s, sub, j)
    decreases |s| - k
  {
    if k + |sub| <= |s| {
      ContainsFromOccurs(s, sub, k + 1);
      MatchFromSlice(s, sub, k, 0);
      assert sub[0..] == sub;
      if MatchFrom(s, sub, k, 0) {
        assert OccursAt(s, sub, k);
      } else if !ContainsFrom(s, sub, k) {
        assert !OccursAt(s, sub, k);
      }
    }
  }

  /** `s.includes(sub)`: true exactly when `sub` occurs somewhere in `s`. */
  function Contains(s: string, sub: string): (b: bool)
    ensures b <==> exists j :: OccursAt(s, sub, j)
  {
    ContainsFromOccurs(s, sub, 0);
    ContainsFrom(s, sub, 0)
  }

  /** Entering a round whose title contains "HR" leads to the HR screen. */
  predicate IsHrTitle(title: string)
    ensures IsHrTitle(title) <==> exists j :: OccursAt(title, "HR", j)
  {
    Contains(title, "HR")
  }

  /** Of the five round titles, only the last one contains "HR". */
  lemma OnlyLastTitleIsHr(i: nat)
    requires i < RoundCount
    ensures IsHrTitle(InitialRounds[i].title) <==> i == HrIdx
  {
    if i == 0 {
      assert !ContainsFrom("Resume Round", "HR", 0);
    } else if i == 1 {
      assert !ContainsFrom("GitHub Round", "HR", 0);
    } else if i == 2 {
      assert !ContainsFrom("Coding Round", "HR", 0);
    } else if i == 3 {
      assert !ContainsFrom("Core CS Round", "HR", 0);
    } else {
      assert ContainsFrom("HR Voice Round", "HR", 0);
    }
  }

  // ---------------------------------------------------------------------------
  // The rounds and their gating.

  /** `slice(0, 4).every(r => r.status === "completed")`. */
  predicate TechDone(rs: seq<Round>)
    requires |rs| == RoundCount
    ensures TechDone(rs) <==> AllCompleted(rs[..HrIdx])
  {
    forall i :: 0 <= i < HrIdx ==> rs[i].status == Completed
  }

  predicate AllCompleted(rs: seq<Round>)
  {
    forall i :: 0 <= i < |rs| ==> rs[i].status == Completed
  }

  /** The unlock rule: a locked HR round becomes not started once the technical rounds are done. */
  function UnlockHr(rs: seq<Round>): (r: seq<Round>)
    requires |rs| == RoundCount
    ensures |r| == RoundCount
    ensures forall i :: 0 <= i < HrIdx ==> r[i] == rs[i]
    ensures rs[HrIdx].status == Locked ==>
      (r[HrIdx].status == NotStarted <==> TechDone(rs)) && (r[HrIdx].status == Locked <==> !TechDone(rs))
    ensures rs[HrIdx].status != Locked ==> r == rs
    ensures !TechDone(rs) ==> r == rs
    ensures r[HrIdx] == rs[HrIdx].(status := r[HrIdx].status)
  {
    if TechDone(rs) && rs[HrIdx].status == Locked
    then rs[HrIdx := rs[HrIdx].(status := NotStarted)]
    else rs
  }

  /** What `completeTechnicalRound` makes of the rounds: round `idx` completed, then the unlock rule. */
  /**
   * What `completeTechnicalRound` makes of the rounds: round `idx` completed,
   * then the unlock rule.  No other technical round changes, no completed
   * status is taken back and no title changes.
   */
  function CompleteTechnical(rs: seq<Round>, idx: nat): (r: seq<Round>)
    requires |rs| == RoundCount && idx < HrIdx
    ensures |r| == RoundCount
    ensures r[idx].status == Completed
    ensures forall i :: 0 <= i < HrIdx && i != idx ==> r[i] == rs[i]
    ensures forall i :: 0 <= i < RoundCount && rs[i].status == Completed ==> r[i].status == Completed
    ensures forall i :: 0 <= i < RoundCount ==> r[i].title == rs[i].title
  {
    UnlockHr(rs[idx := rs[idx].(status := Completed)])
  }

  /**
   * The HR round leaves `locked` exactly when all four technical rounds are
   * completed afterwards, and an HR round that is not locked is left alone.
   */
  lemma CompleteTechnicalGating(rs: seq<Round>, idx: nat)
    requires |rs| == RoundCount && idx < HrIdx
    ensures var r := CompleteTechnical(rs, idx);
      && (rs[HrIdx].status == Locked ==> (r[HrIdx].status == NotStarted <==> TechDone(r)))
      && (rs[HrIdx].status == Locked ==> (r[HrIdx].status == Locked <==> !TechDone(r)))
      && (rs[HrIdx].status != Locked ==> r[HrIdx] == rs[HrIdx])
  {
    var m := rs[idx := rs[idx].(status := Completed)];
    assert TechDone(CompleteTechnical(rs, idx)) <==> TechDone(m);
  }

  /** Completing the same round twice gives the rounds of completing it once. */
  lemma CompleteTechnicalIdempotent(rs: seq<Round>, idx: nat)
    requires |rs| == RoundCount && idx < HrIdx
    ensures CompleteTechnical(CompleteTechnical(rs, idx), idx) == CompleteTechnical(rs, idx)
  {
    var once := CompleteTechnical(rs, idx);
    assert once[idx := once[idx].(status := Completed)] == once;
  }

  /** From the initial rounds, completing three technical rounds leaves HR locked; the fourth unlocks it. */
  lemma GatingScenario()
    ensures var r3 := CompleteTechnical(CompleteTechnical(CompleteTechnical(InitialRounds, 0), 1), 2);
      && r3[HrIdx].status == Locked
      && CompleteTechnical(r3, 3)[HrIdx].status == NotStarted
  {
    var r1 := CompleteTechnical(InitialRounds, 0);
    var r2 := CompleteTechnical(r1, 1);
    assert r1[3].status == NotStarted && r1[HrIdx].status == Locked;
    assert r2[3].status == NotStarted && r2[HrIdx].status == Locked;
    var r3 := CompleteTechnical(r2, 2);
    assert r3[3].status == NotStarted;
  }

  /**
   * The HR screen shows the countdown as minutes, a colon and two-digit
   * seconds, the same display as the resume interview's timer; it starts at
   * "2:00" and ends at "0:00".
   */
  lemma RecordingClock()
    ensures ResumeBasedInterview.FormatTime(RecordingLimit) == "2:00"
    ensures ResumeBasedInterview.FormatTime(0) == "0:00"
  {
    assert ResumeBasedInterview.NatToDecimal(2) == "2";
    assert ResumeBasedInterview.PadStart(ResumeBasedInterview.NatToDecimal(0), 2, '0') == "00";
  }

  // ---------------------------------------------------------------------------
  // Scores.

  /** The five category scores, in `Object.values` order. */
  datatype Scores = Scores(resume: int, github: int, coding: int, core: int, hr: int)

  /** `Math.floor(random * 5) + base` for a random number in [0, 1). */
  function Draw(random: real, base: int): (score: int)
    requires 0.0 <= random < 1.0
    ensures base <= score <= base + 4
  {
    (random * 5.0).Floor + base
  }

  /** The five `Math.random()` results one computation of `finalScores` consumes. */
  datatype Draws = Draws(resume: real, github: real, coding: real, core: real, hr: real)

  predicate UnitDraws(d: Draws)
  {
    && 0.0 <= d.resume < 1.0 && 0.0 <= d.github < 1.0 && 0.0 <= d.coding < 1.0
    && 0.0 <= d.core < 1.0 && 0.0 <= d.hr < 1.0
  }

  /** `finalScores`: 15 plus a draw in 0..4 per category, 14 plus a draw for github. */
  function FinalScores(d: Draws): (s: Scores)
    requires UnitDraws(d)
    ensures InRange(s)
  {
    Scores(Draw(d.resume, 15), Draw(d.github, 14), Draw(d.coding, 15), Draw(d.core, 15), Draw(d.hr, 15))
  }

  /** Each category in 15..19, except github in 14..18. */
  predicate InRange(s: Scores)
  {
    && 15 <= s.resume <= 19 && 14 <= s.github <= 18 && 15 <= s.coding <= 19
    && 15 <= s.core <= 19 && 15 <= s.hr <= 19
  }

  function Values(s: Scores): seq<int>
  {
    [s.resume, s.github, s.coding, s.core, s.hr]
  }

  /** `reduce((a, b) => a + b, 0)`: a left fold, which agrees with the right fold. */
  function Sum(xs: seq<int>): (r: int)
    ensures |xs| > 0 ==> r == xs[0] + Sum(xs[1..])
    decreases |xs|
  {
    if |xs| == 0 then 0
    else
      var n := |xs| - 1;
      assert n > 0 ==> xs[..n][1..] == xs[1..][..n - 1];
      Sum(xs[..n]) + xs[n]
  }

  /** `totalScore`: the five category scores added up. */
  function TotalScore(s: Scores): (t: int)
    ensures t == s.resume + s.github + s.coding + s.core + s.hr
  {
    SumOfFive(s.resume, s.github, s.coding, s.core, s.hr);
    Sum(Values(s))
  }

  /** The fold over five values is their sum. */
  lemma SumOfFive(a: int, b: int, c: int, d: int, e: int)
    ensures Sum([a, b, c, d, e]) == a + b + c + d + e
  {
    assert [a][..0] == [];
    assert Sum([a]) == a;
    assert [a, b][..1] == [a];
    assert Sum([a, b]) == a + b;
    assert [a, b, c][..2] == [a, b];
    assert Sum([a, b, c]) == a + b + c;
    assert [a, b, c, d][..3] == [a, b, c];
    assert Sum([a, b, c, d]) == a + b + c + d;
    assert [a, b, c, d, e][..4] == [a, b, c, d];
  }

  /** A sum of pointwise bounded terms lies between the sums of the bounds. */
  lemma {:induction false} SumBetween(xs: seq<int>, lo: seq<int>, hi: seq<int>)
    requires |xs| == |lo| == |hi|
    requires forall i :: 0 <= i < |xs| ==> lo[i] <= xs[i] <= hi[i]
    ensures Sum(lo) <= Sum(xs) <= Sum(hi)
    decreases |xs|
  {
    if |xs| > 0 {
      var n := |xs| - 1;
      SumBetween(xs[..n], lo[..n], hi[..n]);
    }
  }

  /** The total lies in 74..94, so never above the 100 the page shows it out of. */
  lemma TotalScoreBounds(s: Scores)
    requires InRange(s)
    ensures 74 <= TotalScore(s) <= 94 <= 100
  {
    SumBetween(Values(s), [15, 14, 15, 15, 15], [19, 18, 19, 19, 19]);
    SumOfFive(15, 14, 15, 15, 15);
    SumOfFive(19, 18, 19, 19, 19);
  }

  // ---------------------------------------------------------------------------
  // The leaderboard.

  datatype Entry = Entry(rank: nat, name: string, score: int, highlight: bool)

  /** The five rows before sorting; the candidate's row carries `totalScore`. */
  function Board(total: int): (b: seq<Entry>)
    ensures |b| == 5
    ensures forall i :: 0 <= i < |b| ==> b[i].rank == i + 1
    ensures forall i :: 0 <= i < |b| ==> (b[i].highlight <==> i == 2)
    ensures forall i :: 0 <= i < |b| && i != 2 ==> b[i].name != "YOU"
    ensures b[2] == Entry(3, "YOU", total, true)
    ensures b[0].score == 94 && b[1].score == 91 && b[3].score == 84 && b[4].score == 80
  {
    [ Entry(1, "Akash", 94, false),
      Entry(2, "Shaurya", 91, false),
      Entry(3, "YOU", total, true),
      Entry(4, "Arnesh", 84, false),
      Entry(5, "RandomUser", 80, false) ]
  }

  predicate NonIncreasing(rows: seq<Entry>)
  {
    forall i, j :: 0 <= i < j < |rows| ==> rows[i].score >= rows[j].score
  }

  /** Every row scores at most `v`. */
  predicate AtMost(rows: seq<Entry>, v: int)
  {
    forall k :: 0 <= k < |rows| ==> rows[k].score <= v
  }

  /** Inserts `x` before the first row whose score is not above its own. */
  function Insert(x: Entry, rows: seq<Entry>): (r: seq<Entry>)
    ensures |r| == |rows| + 1
    decreases |rows|
  {
    if |rows| == 0 then [x]
    else if rows[0].score <= x.score then [x] + rows
    else [rows[0]] + Insert(x, rows[1..])
  }

  /** Insertion adds `x` and loses nothing. */
  lemma {:induction false} InsertPermutes(x: Entry, rows: seq<Entry>)
    ensures multiset(Insert(x, rows)) == multiset(rows) + multiset{x}
    decreases |rows|
  {
    if |rows| > 0 && rows[0].score > x.score {
      InsertPermutes(x, rows[1..]);
      assert rows == [rows[0]] + rows[1..];
    }
  }

  /** A bound on every score survives an insertion that respects it. */
  lemma {:induction false} InsertAtMost(x: Entry, rows: seq<Entry>, v: int)
    requires AtMost(rows, v) && x.score <= v
    ensures AtMost(Insert(x, rows), v)
    decreases |rows|
  {
    if |rows| > 0 && rows[0].score > x.score {
      InsertAtMost(x, rows[1..], v);
    }
  }

  /** Inserting into rows in non-increasing order keeps them in that order. */
  lemma {:induction false} InsertSorted(x: Entry, rows: seq<Entry>)
    requires NonIncreasing(rows)
    ensures NonIncreasing(Insert(x, rows))
    decreases |rows|
  {
    if |rows| > 0 && rows[0].score > x.score {
      var tail := rows[1..];
      InsertSorted(x, tail);
      InsertAtMost(x, tail, rows[0].score);
    }
  }

  /**
   * `sort((a, b) => b.score - a.score)`: an insertion sort that is stable,
   * as the language's sort is, so rows with equal scores keep their order.
   */
  function SortByScoreDesc(rows: seq<Entry>): (r: seq<Entry>)
    ensures |r| == |rows|
    decreases |rows|
  {
    if |rows| == 0 then []
    else Insert(rows[0], SortByScoreDesc(rows[1..]))
  }

  /** Sorting keeps exactly the rows it was given. */
  lemma {:induction false} SortPermutes(rows: seq<Entry>)
    ensures multiset(SortByScoreDesc(rows)) == multiset(rows)
    decreases |rows|
  {
    if |rows| > 0 {
      SortPermutes(rows[1..]);
      InsertPermutes(rows[0], SortByScoreDesc(rows[1..]));
      assert rows == [rows[0]] + rows[1..];
    }
  }

  /** The sorted rows are in non-increasing score order. */
  lemma {:induction false} SortSorted(rows: seq<Entry>)
    ensures NonIncreasing(SortByScoreDesc(rows))
    decreases |rows|
  {
    if |rows| > 0 {
      SortSorted(rows[1..]);
      InsertSorted(rows[0], SortByScoreDesc(rows[1..]));
    }
  }

  /** The rows scoring exactly `v`, in their order. */
  function WithScore(rows: seq<Entry>, v: int): seq<Entry>
    decreases |rows|
  {
    if |rows| == 0 then []
    else (if rows[0].score == v then [rows[0]] else []) + WithScore(rows[1..], v)
  }

  /** Insertion puts `x` ahead of every row with its score; other scores see no change. */
  lemma {:induction false} InsertWithScore(x: Entry, rows: seq<Entry>, v: int)
    ensures WithScore(Insert(x, rows), v) == (if x.score == v then [x] else []) + WithScore(rows, v)
    decreases |rows|
  {
    if |rows| > 0 && rows[0].score > x.score {
      InsertWithScore(x, rows[1..], v);
      var r := Insert(x, rows);
      assert r[1..] == Insert(x, rows[1..]);
    } else if |rows| > 0 {
      var r := [x] + rows;
      assert r[1..] == rows;
    }
  }

  /** The sort is stable: the rows of any one score come out in the order they went in. */
  lemma {:induction false} SortStable(rows: seq<Entry>, v: int)
    ensures WithScore(SortByScoreDesc(rows), v) == WithScore(rows, v)
    decreases |rows|
  {
    if |rows| > 0 {
      SortStable(rows[1..], v);
      InsertWithScore(rows[0], SortByScoreDesc(rows[1..]), v);
    }
  }

  /** The leaderboard: the five rows sorted by score, highest first; the candidate appears once. */
  lemma LeaderboardSorted(total: int)
    ensures var shown := SortByScoreDesc(Board(total));
      && |shown| == 5 && NonIncreasing(shown)
      && multiset(shown) == multiset(Board(total))
      && Entry(3, "YOU", total, true) in shown
  {
    SortSorted(Board(total));
    SortPermutes(Board(total));
    assert Entry(3, "YOU", total, true) in multiset(Board(total));
  }

  /** Sorting five rows scored 94, 91, 94, 84, 80 moves only the second 94 up, behind the first. */
  lemma SortTieOrder(e1: Entry, e2: Entry, e3: Entry, e4: Entry, e5: Entry)
    requires e1.score == 94 && e2.score == 91 && e3.score == 94
    requires e4.score == 84 && e5.score == 80
    ensures SortByScoreDesc([e1, e2, e3, e4, e5]) == [e1, e3, e2, e4, e5]
  {
    var b := [e1, e2, e3, e4, e5];
    assert b[1..] == [e2, e3, e4, e5] && b[1..][1..] == [e3, e4, e5];
    assert b[1..][1..][1..] == [e4, e5] && b[1..][1..][1..][1..] == [e5];
    assert SortByScoreDesc([e5]) == [e5];
    assert SortByScoreDesc([e4, e5]) == [e4, e5];
    assert SortByScoreDesc([e3, e4, e5]) == [e3, e4, e5];
    assert Insert(e2, [e4, e5]) == [e2, e4, e5];
    assert SortByScoreDesc([e2, e3, e4, e5]) == [e3, e2, e4, e5];
  }

  /** A tie keeps the listed order: with a total of 94 the candidate comes right after Akash. */
  lemma LeaderboardTie()
    ensures var shown := SortByScoreDesc(Board(94));
      shown[0].name == "Akash" && shown[1].name == "YOU" && shown[2].name == "Shaurya"
  {
    var b := Board(94);
    SortTieOrder(b[0], b[1], b[2], b[3], b[4]);
    assert b == [b[0], b[1], b[2], b[3], b[4]];
  }

  // ---------------------------------------------------------------------------
  // The page's state.

  class Contest {
    var step: Step
    var currentRoundIdx: int
    var rounds: array<Round>
    var isRecording: bool
    /** Whether `audioURL` holds a recording. */
    var hasAudio: bool
    var recordingTime: int

    ghost predicate Valid()
      reads this, rounds
    {
      && rounds.Length == RoundCount
      && (forall i :: 0 <= i < RoundCount ==> rounds[i].title == InitialRounds[i].title)
      && 0 <= currentRoundIdx < RoundCount
      && 0 <= recordingTime <= RecordingLimit
      && (forall i :: 0 <= i < HrIdx ==> rounds[i].status != Locked)
      && (rounds[HrIdx].status != Locked ==> TechDone(rounds[..]))
      && (step == InRound ==> currentRoundIdx < HrIdx)
      && (step == HrRound ==> currentRoundIdx == HrIdx && rounds[HrIdx].status != Locked)
      && (isRecording ==> step == HrRound && !hasAudio)
    }

    /** The page as first rendered. */
    constructor ()
      ensures Valid() && fresh(rounds)
      ensures step == Overview && currentRoundIdx == 0 && rounds[..] == InitialRounds
      ensures !isRecording && !hasAudio && recordingTime == RecordingLimit
    {
      step := Overview;
      currentRoundIdx := 0;
      rounds := new Round[RoundCount](i requires 0 <= i < RoundCount => InitialRounds[i]);
      isRecording := false;
      hasAudio := false;
      recordingTime := RecordingLimit;
    }

    /** "Initialize Protocol". */
    method StartContest()
      requires Valid() && step == Overview
      modifies this`step
      ensures Valid() && step == RoundList
    {
      step := RoundList;
    }

    /**
     * A click on round card `idx`: a locked round does nothing; otherwise the
     * round becomes current and the HR screen or the technical screen opens.
     */
    method EnterRound(idx: int)
      requires Valid() && step == RoundList && 0 <= idx < RoundCount
      modifies this`step, this`currentRoundIdx
      ensures Valid()
      ensures old(rounds[idx].status) == Locked ==>
        step == old(step) && currentRoundIdx == old(currentRoundIdx)
      ensures old(rounds[idx].status) != Locked ==>
        && currentRoundIdx == idx
        && step == (if IsHrTitle(rounds[idx].title) then HrRound else InRound)
      ensures step == HrRound <==> old(rounds[idx].status) != Locked && idx == HrIdx
    {
      var round := rounds[idx];
      if round.status == Locked {
        return;
      }
      OnlyLastTitleIsHr(idx);
      currentRoundIdx := idx;
      if Contains(round.title, "HR") {
        step := HrRound;
      } else {
        step := InRound;
      }
    }

    /** "Mark Round Completed": the current round is completed, the unlock rule runs, back to the matrix. */
    method CompleteTechnicalRound()
      requires Valid() && step == InRound
      modifies this`step, rounds
      ensures Valid() && step == RoundList
      ensures rounds[..] == CompleteTechnical(old(rounds[..]), currentRoundIdx)
      ensures rounds[currentRoundIdx].status == Completed
      ensures forall i :: 0 <= i < RoundCount && old(rounds[i].status) == Completed ==> rounds[i].status == Completed
    {
      ghost var before := rounds[..];
      rounds[currentRoundIdx] := rounds[currentRoundIdx].(status := Completed);
      ghost var marked := rounds[..];
      assert marked == before[currentRoundIdx := before[currentRoundIdx].(status := Completed)];
      var techDone := true;
      var i := 0;
      while i < HrIdx
        invariant 0 <= i <= HrIdx
        invariant techDone <==> forall k :: 0 <= k < i ==> rounds[k].status == Completed
      {
        techDone := techDone && rounds[i].status == Completed;
        i := i + 1;
      }
      if techDone && rounds[HrIdx].status == Locked {
        rounds[HrIdx] := rounds[HrIdx].(status := NotStarted);
      }
      step := RoundList;
    }

    /**
     * "Start Neural Voice Capture", with the browser's answer to the
     * microphone request as `granted`; a refusal changes nothing.
     */
    method StartRecording(granted: bool)
      requires Valid() && step == HrRound && !isRecording && !hasAudio
      modifies this`isRecording
      ensures Valid()
      ensures isRecording == granted
    {
      if granted {
        isRecording := true;
      }
    }

    /** One tick of the recording interval, which runs while recording. */
    method Tick()
      requires Valid() && isRecording
      modifies this`recordingTime
      ensures Valid()
      ensures recordingTime == Countdown.Tick(old(recordingTime))
    {
      recordingTime := if recordingTime > 0 then recordingTime - 1 else 0;
    }

    /**
     * "Terminate Recording": only while recording; the recording stops and
     * its audio becomes available for playback.
     */
    method StopRecording()
      requires Valid()
      modifies this`isRecording, this`hasAudio
      ensures Valid() && !isRecording
      ensures old(isRecording) ==> hasAudio
      ensures !old(isRecording) ==> hasAudio == old(hasAudio)
    {
      if isRecording {
        isRecording := false;
        hasAudio := true;
      }
    }

    /** "Re-Record": the audio is dropped and the countdown restarts at two minutes. */
    method ReRecord()
      requires Valid() && step == HrRound && !isRecording && hasAudio
      modifies this`hasAudio, this`recordingTime
      ensures Valid() && !hasAudio && recordingTime == RecordingLimit
    {
      hasAudio := false;
      recordingTime := RecordingLimit;
    }

    /** "Final Submit": the HR round is completed, and with it every round. */
    method SubmitHRRound()
      requires Valid() && step == HrRound && !isRecording && hasAudio
      modifies this`step, rounds
      ensures Valid() && step == Finished
      ensures rounds[..] == old(rounds[..])[HrIdx := old(rounds[HrIdx]).(status := Completed)]
      ensures AllCompleted(rounds[..])
    {
      rounds[HrIdx] := rounds[HrIdx].(status := Completed);
      step := Finished;
    }

    /** "View Global Leaderboard". */
    method ViewLeaderboard()
      requires Valid() && step == Finished
      modifies this`step
      ensures Valid() && step == Leaderboard
      ensures rounds[..] == old(rounds[..])
    {
      step := Leaderboard;
    }

    /** "Re-Initialize": back to the overview; the rounds keep their statuses. */
    method ReInitialize()
      requires Valid() && step == Leaderboard
      modifies this`step
      ensures Valid() && step == Overview
      ensures rounds[..] == old(rounds[..])
    {
      step := Overview;
    }
  }
}
