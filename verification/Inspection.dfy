/**
  Inspections: answers to the items of a template, their score and verdict, and the
  draft-submit-review-return workflow that freezes them.

  Numbers are kept in hundredths.  A template's items are keyed by their position; a key
  outside the template is an item of some other template.  `Sheet` is one inspection with its
  results, `Inspector` the service that edits it in place.
*/
module Inspection {
  import opened Wrappers
  import opened Sequences
  import opened Texts

  datatype ItemType = YesNo | PassFail | Score | TextAnswer | Photo

  datatype Item = Item(itemLabel: string, kind: ItemType, required: bool)

  datatype Answer = Answer(
    item: nat,
    text: string,
    number: Option<int>,
    boolean: Option<bool>,
    passed: Option<bool>,
    file: Option<string>)

  datatype Status = Draft | Submitted | Reviewed | Returned

  datatype Verdict = Passed | Failed | NeedsAttention

  datatype Sheet = Sheet(
    status: Status,
    score: Option<int>,
    verdict: Option<Verdict>,
    answers: seq<Answer>,
    notes: string,
    submittedAt: Option<int>)

  datatype Refusal =
    | Immutable | ItemMismatch | BooleanRequired | PassFailRequired | ScoreRequired | ScoreOutOfRange
    | TextRequired | TooManyDigits | Duplicate | NotFound | NotPhotoItem | InvalidStatus
    | Incomplete(labels: seq<string>) | ScoreTooWide | NotPermitted | ReasonRequired

  // ---- Score and verdict ----

  function Numbers(answers: seq<Answer>): seq<int> {
    if answers == [] then []
    else Numbers(answers[..|answers| - 1])
         + (match answers[|answers| - 1].number case Some(n) => [n] case None => [])
  }

  function Sum(ns: seq<int>): int {
    if ns == [] then 0 else Sum(ns[..|ns| - 1]) + ns[|ns| - 1]
  }

  /** `sum / n` rounded to a whole number of hundredths, halves to the even one. */
  function HalfEven(sum: int, n: int): int
    requires n > 0
  {
    var q, r := sum / n, sum % n;
    if 2 * r < n then q else if 2 * r > n then q + 1 else if q % 2 == 0 then q else q + 1
  }

  predicate AnyFailed(answers: seq<Answer>) {
    exists i :: 0 <= i < |answers| && answers[i].passed == Some(false)
  }

  const PASS_THRESHOLD := 7000

  /** The rounded mean, if there is one. */
  function Mean(ns: seq<int>): Option<int> {
    if ns == [] then None else Some(HalfEven(Sum(ns), |ns|))
  }

  function VerdictFor(failed: bool, score: Option<int>): Verdict {
    if failed then Failed
    else match score
      case Some(score) => if score < PASS_THRESHOLD then NeedsAttention else Passed
      case None => Passed
  }

  function ScoreOf(answers: seq<Answer>): Option<int> {
    Mean(Numbers(answers))
  }

  function VerdictOf(answers: seq<Answer>): Verdict {
    VerdictFor(AnyFailed(answers), ScoreOf(answers))
  }

  // ---- Validation of one answer ----

  predicate Digits6(number: Option<int>) {
    number.Some? ==> -1000000 < number.value < 1000000
  }

  /** Validation, which also derives `passed` and `boolean` from the answer proper. */
  function Cleaned(items: seq<Item>, a: Answer): Result<Answer, Refusal> {
    if a.item >= |items| then Err(ItemMismatch)
    else if !Digits6(a.number) then Err(TooManyDigits)
    else match items[a.item].kind
      case YesNo => if a.boolean.None? then Err(BooleanRequired) else Ok(a.(passed := a.boolean))
      case PassFail => if a.passed.None? then Err(PassFailRequired) else Ok(a.(boolean := a.passed))
      case Score =>
        if a.number.None? then Err(ScoreRequired)
        else if !(0 <= a.number.value <= 10000) then Err(ScoreOutOfRange)
        else Ok(a.(passed := Some(a.number.value >= 5000)))
      case TextAnswer => if Blank(a.text) then Err(TextRequired) else Ok(a)
      case Photo => Ok(a)
  }

  // ---- Completeness ----

  /** The answer to an item, if there is one. */
  function AnswerTo(answers: seq<Answer>, item: nat): (a: Option<Answer>)
    ensures a.Some? ==> a.value in answers && a.value.item == item
    ensures a.None? ==> forall i :: 0 <= i < |answers| ==> answers[i].item != item
  {
    if answers == [] then None
    else if answers[|answers| - 1].item == item then Some(answers[|answers| - 1])
    else AnswerTo(answers[..|answers| - 1], item)
  }

  predicate Complete(kind: ItemType, a: Answer) {
    match kind
    case Photo => a.file.Some?
    case TextAnswer => !Blank(a.text)
    case Score => a.number.Some?
    case YesNo => a.passed.Some?
    case PassFail => a.passed.Some?
  }

  predicate Answered(items: seq<Item>, answers: seq<Answer>, item: nat)
    requires item < |items|
  {
    var a := AnswerTo(answers, item);
    a.Some? && Complete(items[item].kind, a.value)
  }

  /** The labels of the first `n` items that are required and not completely answered. */
  function Missing(items: seq<Item>, answers: seq<Answer>, n: nat): seq<string>
    requires n <= |items|
  {
    if n == 0 then []
    else Missing(items, answers, n - 1)
         + if items[n - 1].required && !Answered(items, answers, n - 1) then [items[n - 1].itemLabel] else []
  }

  // ---- The calls ----

  predicate Editable(status: Status) {
    status == Draft || status == Returned
  }

  /** The stored score column holds five digits. */
  predicate ScoreFits(score: Option<int>) {
    score.Some? ==> -100000 < score.value < 100000
  }

  datatype Call =
    | Add(answer: Answer)
    | Update(index: nat, text: Option<string>, number: Option<int>, boolean: Option<bool>, passed: Option<bool>)
    | Upload(index: nat, file: string)
    | SaveDraft(notes: Option<string>)
    | Submit(now: int)
    | Return(permitted: bool, reason: string)
    | Review(permitted: bool)

  function Rescored(sheet: Sheet, status: Status): Result<Sheet, Refusal> {
    var score := ScoreOf(sheet.answers);
    if !ScoreFits(score) then Err(ScoreTooWide)
    else Ok(sheet.(score := score, verdict := Some(VerdictOf(sheet.answers)), status := status))
  }

  function Patched(a: Answer, text: Option<string>, number: Option<int>, boolean: Option<bool>, passed: Option<bool>)
    : Answer
  {
    a.(text := if text.Some? then text.value else a.text,
       number := if number.Some? then number else a.number,
       boolean := if boolean.Some? then boolean else a.boolean,
       passed := if passed.Some? then passed else a.passed)
  }

  function Try(items: seq<Item>, sheet: Sheet, call: Call): Result<Sheet, Refusal> {
    match call
    case Add(answer) =>
      if !Editable(sheet.status) then Err(Immutable)
      else
        (match Cleaned(items, answer.(file := None))
         case Err(e) => Err(e)
         case Ok(a) =>
           if AnswerTo(sheet.answers, a.item).Some? then Err(Duplicate)
           else Ok(sheet.(answers := sheet.answers + [a])))
    case Update(index, text, number, boolean, passed) =>
      if index >= |sheet.answers| then Err(NotFound)
      else if !Editable(sheet.status) then Err(Immutable)
      else
        (match Cleaned(items, Patched(sheet.answers[index], text, number, boolean, passed))
         case Err(e) => Err(e)
         case Ok(a) => Ok(sheet.(answers := sheet.answers[index := a])))
    case Upload(index, file) =>
      if index >= |sheet.answers| then Err(NotFound)
      else if !Editable(sheet.status) then Err(Immutable)
      else
        var a := sheet.answers[index];
        if a.item >= |items| || items[a.item].kind != Photo then Err(NotPhotoItem)
        else Ok(sheet.(answers := sheet.answers[index := a.(file := Some(file))]))
    case SaveDraft(notes) =>
      if !Editable(sheet.status) then Err(Immutable)
      else Rescored(sheet.(notes := if notes.Some? then notes.value else sheet.notes), sheet.status)
    case Submit(now) =>
      if !Editable(sheet.status) then Err(InvalidStatus)
      else if Missing(items, sheet.answers, |items|) != [] then Err(Incomplete(Missing(items, sheet.answers, |items|)))
      else Rescored(sheet.(submittedAt := Some(now)), Submitted)
    case Return(permitted, reason) =>
      if !permitted then Err(NotPermitted)
      else if sheet.status !in {Submitted, Reviewed} then Err(InvalidStatus)
      else if Blank(reason) then Err(ReasonRequired)
      else Ok(sheet.(status := Returned, notes := WithLine(sheet.notes, "Returned: " + reason)))
    case Review(permitted) =>
      if !permitted then Err(NotPermitted)
      else if sheet.status != Submitted then Err(InvalidStatus)
      else Rescored(sheet, Reviewed)
  }

  function Apply(items: seq<Item>, sheet: Sheet, call: Call): Sheet {
    match Try(items, sheet, call)
    case Ok(sheet') => sheet'
    case Err(_) => sheet
  }

  const FRESH := Sheet(Draft, None, None, [], "", None)

  function Run(items: seq<Item>, calls: seq<Call>): Sheet {
    if calls == [] then FRESH
    else Apply(items, Run(items, calls[..|calls| - 1]), calls[|calls| - 1])
  }

  // ---- Rounding and the threshold ----

  /** `h` is a whole number nearest to `sum / n`, and the even one when two are equally near. */
  predicate Nearest(h: int, sum: int, n: int) {
    && -n <= 2 * (h * n - sum) <= n
    && (2 * (h * n - sum) == n || 2 * (h * n - sum) == -n ==> h % 2 == 0)
  }

  /** Half-even rounding is the nearest whole number, and the even one when two are equally near. */
  lemma HalfEvenIsNearest(sum: int, n: int)
    requires n > 0
    ensures Nearest(HalfEven(sum, n), sum, n)
  {
    var q, r := sum / n, sum % n;
    assert sum == q * n + r;
    assert (q + 1) * n == q * n + n;
  }

  /** Two numbers this near to the same fraction, each even on a tie, are the same. */
  lemma NearestIsUnique(sum: int, n: int, g: int, h: int)
    requires n > 0 && Nearest(g, sum, n) && Nearest(h, sum, n)
    ensures g == h
  {
    assert (g - h) * n == g * n - h * n && (h - g) * n == h * n - g * n;
    Cancel(g - h, 1, n);
    Cancel(h - g, 1, n);
    assert (h + 1) * n == h * n + n && (g + 1) * n == g * n + n;
  }

  lemma Cancel(a: int, b: int, n: int)
    requires a * n <= b * n && n > 0
    ensures a <= b
  {
    assert (b + 1) * n == b * n + n;
    if a > b {
      Times(a, b + 1, n);
    }
  }

  lemma Times(a: int, b: int, n: int)
    requires a >= b && n > 0
    ensures a * n >= b * n
  {
  }

  /** Rounding a mean does not carry it past a whole number. */
  lemma HalfEvenBetween(sum: int, n: int, low: int, high: int)
    requires n > 0 && low * n <= sum <= high * n
    ensures low <= HalfEven(sum, n) <= high
  {
    HalfEvenIsNearest(sum, n);
    NearestBetween(sum, n, low, high, HalfEven(sum, n));
  }

  lemma NearestBetween(sum: int, n: int, low: int, high: int, h: int)
    requires n > 0 && low * n <= sum <= high * n && -n <= 2 * (h * n - sum) <= n
    ensures low <= h <= high
  {
    assert (h - 1) * n == h * n - n && (h + 1) * n == h * n + n;
    if h > high {
      Times(h - 1, high, n);
    } else if h < low {
      Times(low, h + 1, n);
    }
  }

  /** The rounded mean reaches 70.00 exactly when the mean itself reaches 69.995, the tie going up to the even 70.00. */
  lemma ThresholdInSums(sum: int, n: int)
    requires n > 0
    ensures HalfEven(sum, n) >= PASS_THRESHOLD <==> 2 * sum >= 13999 * n
  {
    HalfEvenIsNearest(sum, n);
    var h := HalfEven(sum, n);
    if h >= 7000 {
      Times(h, 7000, n);
    } else {
      Times(6999, h, n);
      if h < 6999 {
        Times(6998, h, n);
      }
    }
  }

  /** One answer marked as not passed fails the inspection, and nothing else does. */
  lemma FailedWhenSomeFailed(answers: seq<Answer>)
    ensures VerdictOf(answers) == Failed <==> exists a :: a in answers && a.passed == Some(false)
  {
    if a :| a in answers && a.passed == Some(false) {
      var i :| 0 <= i < |answers| && answers[i] == a;
    }
  }

  /** With no failed answer the verdict is PASSED exactly from that sum on. */
  lemma PassedFromSum(answers: seq<Answer>)
    requires Numbers(answers) != [] && forall a :: a in answers ==> a.passed != Some(false)
    ensures VerdictOf(answers) == Passed <==> 2 * Sum(Numbers(answers)) >= 13999 * |Numbers(answers)|
  {
    ThresholdInSums(Sum(Numbers(answers)), |Numbers(answers)|);
  }

  lemma {:induction false} SumBetween(ns: seq<int>, low: int, high: int)
    requires forall i :: 0 <= i < |ns| ==> low <= ns[i] <= high
    ensures low * |ns| <= Sum(ns) <= high * |ns|
  {
    if ns != [] {
      SumBetween(ns[..|ns| - 1], low, high);
      assert low * |ns| == low * (|ns| - 1) + low && high * |ns| == high * (|ns| - 1) + high;
    }
  }

  /** The score lies between any bounds on the numbers averaged, hence between the least and the greatest. */
  lemma ScoreBetween(answers: seq<Answer>, low: int, high: int)
    requires forall i :: 0 <= i < |Numbers(answers)| ==> low <= Numbers(answers)[i] <= high
    ensures ScoreOf(answers).Some? ==> low <= ScoreOf(answers).value <= high
  {
    var ns := Numbers(answers);
    if ns != [] {
      SumBetween(ns, low, high);
      HalfEvenBetween(Sum(ns), |ns|, low, high);
    }
  }

  // ---- Order does not matter ----

  /** How many answers carry a number, and what these add up to. */
  function Tally(answers: seq<Answer>): (int, int) {
    if answers == [] then (0, 0)
    else
      var (count, sum) := Tally(answers[..|answers| - 1]);
      match answers[|answers| - 1].number
      case Some(n) => (count + 1, sum + n)
      case None => (count, sum)
  }

  lemma {:induction false} TallyIsNumbers(answers: seq<Answer>)
    ensures Tally(answers) == (|Numbers(answers)|, Sum(Numbers(answers)))
  {
    if answers != [] {
      var init := Numbers(answers[..|answers| - 1]);
      TallyIsNumbers(answers[..|answers| - 1]);
      match answers[|answers| - 1].number
      case Some(n) => assert (init + [n])[..|init|] == init;
      case None => assert init + [] == init;
    }
  }

  lemma {:induction false} TallyWithout(answers: seq<Answer>, k: nat)
    requires k < |answers|
    ensures var (count, sum) := Tally(answers[..k] + answers[k + 1..]);
            Tally(answers) == match answers[k].number case Some(n) => (count + 1, sum + n) case None => (count, sum)
  {
    var init, rest := answers[..|answers| - 1], answers[..k] + answers[k + 1..];
    assert answers == init + [answers[|answers| - 1]];
    TallyOneMore(init, answers[|answers| - 1]);
    if k == |answers| - 1 {
      assert rest == init;
    } else {
      TallyWithout(init, k);
      TallyOneMore(init[..k] + init[k + 1..], answers[|answers| - 1]);
      LastStays(answers, k);
    }
  }

  lemma TallyOneMore(answers: seq<Answer>, a: Answer)
    ensures var (count, sum) := Tally(answers);
            Tally(answers + [a]) == match a.number case Some(n) => (count + 1, sum + n) case None => (count, sum)
  {
    assert (answers + [a])[..|answers|] == answers;
  }

  lemma {:induction false} TallyPermuted(a: seq<Answer>, b: seq<Answer>)
    requires multiset(a) == multiset(b)
    ensures Tally(a) == Tally(b)
  {
    if a == [] {
      assert multiset(b) == multiset{} && |b| == |multiset(b)|;
    } else {
      var k := SameLast(a, b);
      TallyPermuted(a[..|a| - 1], b[..k] + b[k + 1..]);
      TallyWithout(b, k);
    }
  }

  lemma FailedPermuted(a: seq<Answer>, b: seq<Answer>)
    requires multiset(a) == multiset(b) && AnyFailed(a)
    ensures AnyFailed(b)
  {
    var i :| 0 <= i < |a| && a[i].passed == Some(false);
    assert a[i] in multiset(b);
  }

  /** Neither score nor verdict depends on the order of the answers. */
  lemma OrderDoesNotMatter(a: seq<Answer>, b: seq<Answer>)
    requires multiset(a) == multiset(b)
    ensures ScoreOf(a) == ScoreOf(b) && VerdictOf(a) == VerdictOf(b)
  {
    TallyPermuted(a, b);
    TallyIsNumbers(a);
    TallyIsNumbers(b);
    if AnyFailed(a) {
      FailedPermuted(a, b);
    }
    if AnyFailed(b) {
      FailedPermuted(b, a);
    }
  }

  // ---- Every reachable sheet ----

  /** What validation leaves behind. */
  predicate CleanAnswer(items: seq<Item>, a: Answer) {
    a.item < |items| &&
    match items[a.item].kind
    case YesNo => a.passed.Some? && a.passed == a.boolean
    case PassFail => a.passed.Some? && a.passed == a.boolean
    case Score => a.number.Some? && 0 <= a.number.value <= 10000 && a.passed == Some(a.number.value >= 5000)
    case TextAnswer => !Blank(a.text)
    case Photo => true
  }

  ghost predicate Sound(items: seq<Item>, sheet: Sheet) {
    && (forall i :: 0 <= i < |sheet.answers| ==> CleanAnswer(items, sheet.answers[i]))
    && (forall i, j :: 0 <= i < j < |sheet.answers| ==> sheet.answers[i].item != sheet.answers[j].item)
    && (!Editable(sheet.status) ==>
          && sheet.score == ScoreOf(sheet.answers)
          && sheet.verdict == Some(VerdictOf(sheet.answers))
          && ScoreFits(sheet.score)
          && Missing(items, sheet.answers, |items|) == [])
  }

  lemma ApplyKeepsSound(items: seq<Item>, sheet: Sheet, call: Call)
    requires Sound(items, sheet)
    ensures Sound(items, Apply(items, sheet, call))
  {
    if Try(items, sheet, call).Ok? {
      match call
      case Add(answer) =>
        AddKeepsClean(items, sheet, answer);
      case Update(index, text, number, boolean, passed) =>
        CleanedIsClean(items, Patched(sheet.answers[index], text, number, boolean, passed));
      case _ =>
    }
  }

  lemma CleanedIsClean(items: seq<Item>, a: Answer)
    ensures var r := Cleaned(items, a);
            r.Ok? ==> CleanAnswer(items, r.value) && r.value.item == a.item
  {
  }

  lemma AddKeepsClean(items: seq<Item>, sheet: Sheet, answer: Answer)
    requires Sound(items, sheet) && Try(items, sheet, Add(answer)).Ok?
    ensures var answers := Apply(items, sheet, Add(answer)).answers;
            && (forall i :: 0 <= i < |answers| ==> CleanAnswer(items, answers[i]))
            && (forall i, j :: 0 <= i < j < |answers| ==> answers[i].item != answers[j].item)
  {
    CleanedIsClean(items, answer.(file := None));
  }

  /**
    Over every run: validated answers, one per item; and a submitted or reviewed sheet stores the score and
    verdict a recomputation gives, and has a complete answer to every required item.
  */
  lemma {:induction false} RunKeepsSound(items: seq<Item>, calls: seq<Call>)
    ensures Sound(items, Run(items, calls))
  {
    if calls != [] {
      RunKeepsSound(items, calls[..|calls| - 1]);
      ApplyKeepsSound(items, Run(items, calls[..|calls| - 1]), calls[|calls| - 1]);
    }
  }

  /** Review confirms what submission stored: it changes nothing but the status. */
  lemma ReviewOnlyConfirms(items: seq<Item>, calls: seq<Call>)
    requires Run(items, calls).status == Submitted
    ensures Try(items, Run(items, calls), Review(true)) == Ok(Run(items, calls).(status := Reviewed))
  {
    RunKeepsSound(items, calls);
  }

  /** While a sheet is submitted or reviewed no call changes its answers, score or verdict. */
  lemma FrozenUntilReturned(items: seq<Item>, calls: seq<Call>, call: Call)
    requires !Editable(Run(items, calls).status)
    ensures var before, after := Run(items, calls), Run(items, calls + [call]);
            && after.answers == before.answers && after.score == before.score && after.verdict == before.verdict
            && (Editable(after.status) <==> call.Return? && call.permitted && !Blank(call.reason))
  {
    RunKeepsSound(items, calls);
    assert (calls + [call])[..|calls|] == calls;
  }

  lemma {:induction false} MissingNone(items: seq<Item>, answers: seq<Answer>, n: nat)
    requires n <= |items|
    ensures Missing(items, answers, n) == []
       <==> forall i :: 0 <= i < n && items[i].required ==> Answered(items, answers, i)
  {
    if n > 0 {
      MissingNone(items, answers, n - 1);
    }
  }

  /** An editable sheet can be submitted exactly when every required item is answered and the score fits its column. */
  lemma SubmitWhenAnswered(items: seq<Item>, sheet: Sheet, now: int)
    requires Editable(sheet.status)
    ensures Try(items, sheet, Submit(now)).Ok?
       <==> (forall i :: 0 <= i < |items| && items[i].required ==> Answered(items, sheet.answers, i))
            && ScoreFits(ScoreOf(sheet.answers))
  {
    MissingNone(items, sheet.answers, |items|);
  }

  /** A SCORE answer below 50 fails the whole inspection, whatever else was answered. */
  lemma LowScoreFails(items: seq<Item>, calls: seq<Call>, i: nat)
    requires i < |Run(items, calls).answers|
    requires var a := Run(items, calls).answers[i];
             a.item < |items| && items[a.item].kind == Score && a.number.Some? && a.number.value < 5000
    ensures VerdictOf(Run(items, calls).answers) == Failed
  {
    RunKeepsSound(items, calls);
    assert CleanAnswer(items, Run(items, calls).answers[i]);
  }

  // ---- What each call answers, column by column ----

  /** What the template asks of an answer. */
  predicate AnswerFits(items: seq<Item>, a: Answer) {
    && a.item < |items| && (a.number == None || -999999 <= a.number.value <= 999999)
    && match items[a.item].kind
       case YesNo => a.boolean != None
       case PassFail => a.passed != None
       case Score => a.number != None && 0 <= a.number.value <= 10000
       case TextAnswer => HasText(a.text)
       case Photo => true
  }

  /** What is stored of a given answer: yes means passed, passed means yes, and 50 points pass. */
  predicate StoredAs(kind: ItemType, given: Answer, stored: Answer) {
    && stored.item == given.item && stored.text == given.text && stored.number == given.number
    && stored.file == given.file
    && match kind
       case YesNo => stored.boolean == given.boolean && stored.passed == given.boolean
       case PassFail => stored.passed == given.passed && stored.boolean == given.passed
       case Score =>
         given.number.Some? && stored.boolean == given.boolean && stored.passed == Some(given.number.value >= 5000)
       case TextAnswer => stored.boolean == given.boolean && stored.passed == given.passed
       case Photo => stored.boolean == given.boolean && stored.passed == given.passed
  }

  /** An answer with the given columns replaced. */
  predicate Merged(before: Answer, text: Option<string>, number: Option<int>, boolean: Option<bool>,
                   passed: Option<bool>, after: Answer) {
    && after.item == before.item && after.file == before.file
    && after.text == (match text case None => before.text case Some(value) => value)
    && after.number == (if number == None then before.number else number)
    && after.boolean == (if boolean == None then before.boolean else boolean)
    && after.passed == (if passed == None then before.passed else passed)
  }

  /** A required item counts as answered when the answer to it holds what its kind asks for. */
  predicate CompleteFor(kind: ItemType, a: Answer) {
    match kind
    case YesNo => a.passed != None
    case PassFail => a.passed != None
    case Score => a.number != None
    case TextAnswer => HasText(a.text)
    case Photo => a.file != None
  }

  predicate AllRequiredComplete(items: seq<Item>, answers: seq<Answer>) {
    forall i :: 0 <= i < |items| && items[i].required ==>
      exists n :: 0 <= n < |answers| && answers[n].item == i && CompleteFor(items[i].kind, answers[n])
  }

  /** Score and verdict are written down as computed, under a score column of five digits. */
  predicate Scored(before: Sheet, after: Sheet) {
    && after.score == ScoreOf(before.answers) && after.verdict == Some(VerdictOf(before.answers))
    && (after.score == None || -99999 <= after.score.value <= 99999)
  }

  /** What an accepted call leaves behind. */
  ghost predicate Done(items: seq<Item>, before: Sheet, call: Call, after: Sheet) {
    match call
    case Add(given) =>
      && before.status in {Draft, Returned} && AnswerFits(items, given)
      && (forall n :: 0 <= n < |before.answers| ==> before.answers[n].item != given.item)
      && |after.answers| == |before.answers| + 1
      && StoredAs(items[given.item].kind, given.(file := None), after.answers[|before.answers|])
      && after == before.(answers := before.answers + [after.answers[|before.answers|]])
    case Update(index, text, number, boolean, passed) =>
      && before.status in {Draft, Returned} && index < |before.answers| && |after.answers| == |before.answers|
      && after == before.(answers := before.answers[index := after.answers[index]])
      && (forall given :: Merged(before.answers[index], text, number, boolean, passed, given) ==>
            AnswerFits(items, given) && StoredAs(items[given.item].kind, given, after.answers[index]))
    case Upload(index, file) =>
      && before.status in {Draft, Returned} && index < |before.answers|
      && before.answers[index].item < |items| && items[before.answers[index].item].kind == Photo
      && after == before.(answers := before.answers[index := before.answers[index].(file := Some(file))])
    case SaveDraft(notes) =>
      && before.status in {Draft, Returned} && Scored(before, after)
      && after.notes == (if notes == None then before.notes else notes.value)
      && after == before.(notes := after.notes, score := after.score, verdict := after.verdict)
    case Submit(now) =>
      && before.status in {Draft, Returned} && AllRequiredComplete(items, before.answers) && Scored(before, after)
      && after == before.(score := after.score, verdict := after.verdict, status := Submitted, submittedAt := Some(now))
    case Return(permitted, reason) =>
      && permitted && before.status in {Submitted, Reviewed} && HasText(reason)
      && Appended(before.notes, "Returned: " + reason, after.notes)
      && after == before.(status := Returned, notes := after.notes)
    case Review(permitted) =>
      && permitted && before.status == Submitted && Scored(before, after)
      && after == before.(score := after.score, verdict := after.verdict, status := Reviewed)
  }

  lemma CleanedMeans(items: seq<Item>, given: Answer)
    ensures Cleaned(items, given).Ok? <==> AnswerFits(items, given)
    ensures Cleaned(items, given).Ok? ==> StoredAs(items[given.item].kind, given, Cleaned(items, given).value)
  {
    BlankMeansNoText(given.text);
  }

  lemma CompleteMeans(kind: ItemType, a: Answer)
    ensures Complete(kind, a) <==> CompleteFor(kind, a)
  {
    BlankMeansNoText(a.text);
  }

  /** With one answer per item, nothing is missing exactly when every required item has a complete answer. */
  lemma NothingMissingMeans(items: seq<Item>, answers: seq<Answer>)
    requires forall m, n :: 0 <= m < n < |answers| ==> answers[m].item != answers[n].item
    ensures Missing(items, answers, |items|) == [] <==> AllRequiredComplete(items, answers)
  {
    MissingNone(items, answers, |items|);
    forall i | 0 <= i < |items|
      ensures Answered(items, answers, i)
         <==> exists n :: 0 <= n < |answers| && answers[n].item == i && CompleteFor(items[i].kind, answers[n])
    {
      AnsweredMeans(items, answers, i);
    }
  }

  lemma AnsweredMeans(items: seq<Item>, answers: seq<Answer>, i: nat)
    requires i < |items| && forall m, n :: 0 <= m < n < |answers| ==> answers[m].item != answers[n].item
    ensures Answered(items, answers, i)
       <==> exists n :: 0 <= n < |answers| && answers[n].item == i && CompleteFor(items[i].kind, answers[n])
  {
    var a := AnswerTo(answers, i);
    if a.Some? {
      CompleteMeans(items[i].kind, a.value);
      var m :| 0 <= m < |answers| && answers[m] == a.value;
      assert forall n :: 0 <= n < |answers| && answers[n].item == i ==> n == m;
    }
  }

  /** An accepted call leaves exactly what its columns say; a refused one leaves the sheet as it was. */
  lemma CallAnswers(items: seq<Item>, sheet: Sheet, call: Call)
    requires Sound(items, sheet)
    ensures if Try(items, sheet, call).Ok? then Done(items, sheet, call, Apply(items, sheet, call))
            else Apply(items, sheet, call) == sheet
  {
    match call
    case Add(given) =>
      CleanedMeans(items, given.(file := None));
    case Update(index, text, number, boolean, passed) =>
      if index < |sheet.answers| {
        CleanedMeans(items, Patched(sheet.answers[index], text, number, boolean, passed));
        assert forall given :: Merged(sheet.answers[index], text, number, boolean, passed, given) ==>
          given == Patched(sheet.answers[index], text, number, boolean, passed);
      }
    case Submit(_) =>
      NothingMissingMeans(items, sheet.answers);
    case Return(_, reason) =>
      BlankMeansNoText(reason);
      WithLineAppends(sheet.notes, "Returned: " + reason);
    case _ =>
  }

  /** What the workflow asks of a call. */
  ghost predicate Admissible(items: seq<Item>, sheet: Sheet, call: Call) {
    match call
    case Add(given) =>
      && sheet.status in {Draft, Returned} && AnswerFits(items, given)
      && (forall n :: 0 <= n < |sheet.answers| ==> sheet.answers[n].item != given.item)
    case Update(index, text, number, boolean, passed) =>
      && sheet.status in {Draft, Returned} && index < |sheet.answers|
      && (forall given :: Merged(sheet.answers[index], text, number, boolean, passed, given) ==>
            AnswerFits(items, given))
    case Upload(index, _) =>
      && sheet.status in {Draft, Returned} && index < |sheet.answers|
      && sheet.answers[index].item < |items| && items[sheet.answers[index].item].kind == Photo
    case SaveDraft(_) => sheet.status in {Draft, Returned} && ScoreFits(ScoreOf(sheet.answers))
    case Submit(_) =>
      && sheet.status in {Draft, Returned} && AllRequiredComplete(items, sheet.answers)
      && ScoreFits(ScoreOf(sheet.answers))
    case Return(permitted, reason) => permitted && sheet.status in {Submitted, Reviewed} && HasText(reason)
    case Review(permitted) => permitted && sheet.status == Submitted
  }

  lemma AcceptsAdmissible(items: seq<Item>, sheet: Sheet, call: Call)
    requires Sound(items, sheet)
    ensures Try(items, sheet, call).Ok? <==> Admissible(items, sheet, call)
  {
    match call
    case Add(given) =>
      CleanedMeans(items, given.(file := None));
    case Update(index, text, number, boolean, passed) =>
      if index < |sheet.answers| {
        var patched := Patched(sheet.answers[index], text, number, boolean, passed);
        CleanedMeans(items, patched);
        assert Merged(sheet.answers[index], text, number, boolean, passed, patched);
        assert forall given :: Merged(sheet.answers[index], text, number, boolean, passed, given) ==> given == patched;
      }
    case Submit(_) =>
      NothingMissingMeans(items, sheet.answers);
    case Return(_, reason) =>
      BlankMeansNoText(reason);
    case _ =>
  }

  /** What a refusal means: the first thing that was wrong. */
  ghost predicate RefusedFor(items: seq<Item>, sheet: Sheet, call: Call, error: Refusal) {
    var closed := sheet.status in {Submitted, Reviewed};
    match error
    case Immutable => closed && !call.Submit? && !call.Return? && !call.Review?
    case NotFound => (call.Update? || call.Upload?) && call.index >= |sheet.answers|
    case Duplicate => call.Add? && exists n :: 0 <= n < |sheet.answers| && sheet.answers[n].item == call.answer.item
    case NotPhotoItem =>
      && call.Upload? && call.index < |sheet.answers|
      && (sheet.answers[call.index].item < |items| ==> items[sheet.answers[call.index].item].kind != Photo)
    case InvalidStatus =>
      (call.Submit? && closed) || (call.Return? && !closed) || (call.Review? && sheet.status != Submitted)
    case NotPermitted => (call.Return? || call.Review?) && !call.permitted
    case ReasonRequired => call.Return? && call.permitted && !HasText(call.reason)
    case Incomplete(labels) =>
      call.Submit? && !closed && labels != []
      && forall name :: name in labels <==> exists i :: 0 <= i < |items| && Lacks(items, sheet.answers, i, name)
    case ScoreTooWide =>
      && (call.SaveDraft? || call.Submit? || call.Review?) && ScoreOf(sheet.answers).Some?
      && !(-99999 <= ScoreOf(sheet.answers).value <= 99999)
    case _ =>
      match call
      case Add(given) => AnswerRefusedFor(items, given, error)
      case Update(index, text, number, boolean, passed) =>
        index < |sheet.answers|
        && exists given :: Merged(sheet.answers[index], text, number, boolean, passed, given)
                           && AnswerRefusedFor(items, given, error)
      case _ => false
  }

  /** A required item of that label without a complete answer. */
  predicate Lacks(items: seq<Item>, answers: seq<Answer>, i: nat, name: string)
    requires i < |items|
  {
    && items[i].required && items[i].itemLabel == name
    && forall n :: 0 <= n < |answers| && answers[n].item == i ==> !CompleteFor(items[i].kind, answers[n])
  }

  predicate AnswerRefusedFor(items: seq<Item>, a: Answer, error: Refusal) {
    match error
    case ItemMismatch => a.item >= |items|
    case TooManyDigits => a.number.Some? && (a.number.value <= -1000000 || 1000000 <= a.number.value)
    case BooleanRequired => a.item < |items| && items[a.item].kind == YesNo && a.boolean == None
    case PassFailRequired => a.item < |items| && items[a.item].kind == PassFail && a.passed == None
    case ScoreRequired => a.item < |items| && items[a.item].kind == Score && a.number == None
    case ScoreOutOfRange =>
      && a.item < |items| && items[a.item].kind == Score && a.number.Some?
      && (a.number.value < 0 || 10000 < a.number.value)
    case TextRequired => a.item < |items| && items[a.item].kind == TextAnswer && !HasText(a.text)
    case _ => false
  }

  lemma CleanedRefusalTells(items: seq<Item>, a: Answer)
    requires Cleaned(items, a).Err?
    ensures AnswerRefusedFor(items, a, Cleaned(items, a).error)
  {
    BlankMeansNoText(a.text);
  }

  lemma {:induction false} MissingTells(items: seq<Item>, answers: seq<Answer>, n: nat, name: string)
    requires n <= |items| && forall m, k :: 0 <= m < k < |answers| ==> answers[m].item != answers[k].item
    ensures name in Missing(items, answers, n) <==> exists i :: 0 <= i < n && Lacks(items, answers, i, name)
  {
    if n > 0 {
      MissingTells(items, answers, n - 1, name);
      AnsweredMeans(items, answers, n - 1);
      assert Lacks(items, answers, n - 1, name)
        <==> items[n - 1].required && items[n - 1].itemLabel == name && !Answered(items, answers, n - 1);
      assert name in Missing(items, answers, n) <==> name in Missing(items, answers, n - 1)
                                                     || Lacks(items, answers, n - 1, name);
      LackingSplits(items, answers, n, name);
    }
  }

  lemma LackingSplits(items: seq<Item>, answers: seq<Answer>, n: nat, name: string)
    requires 0 < n <= |items|
    ensures (exists i :: 0 <= i < n && Lacks(items, answers, i, name))
       <==> (exists i :: 0 <= i < n - 1 && Lacks(items, answers, i, name)) || Lacks(items, answers, n - 1, name)
  {
  }

  lemma RefusalTells(items: seq<Item>, sheet: Sheet, call: Call)
    requires Sound(items, sheet) && Try(items, sheet, call).Err?
    ensures RefusedFor(items, sheet, call, Try(items, sheet, call).error)
  {
    match call
    case Add(given) =>
      var a := given.(file := None);
      if Cleaned(items, a).Err? { CleanedRefusalTells(items, a); }
    case Update(index, text, number, boolean, passed) =>
      if index < |sheet.answers| {
        var a := Patched(sheet.answers[index], text, number, boolean, passed);
        assert Merged(sheet.answers[index], text, number, boolean, passed, a);
        if Cleaned(items, a).Err? { CleanedRefusalTells(items, a); }
      }
    case Submit(_) =>
      forall name
        ensures name in Missing(items, sheet.answers, |items|)
                <==> exists i :: 0 <= i < |items| && Lacks(items, sheet.answers, i, name)
      {
        MissingTells(items, sheet.answers, |items|, name);
      }
    case Return(_, reason) =>
      BlankMeansNoText(reason);
    case _ =>
  }

  /** An accepted answer that says no, or not passed, fails the inspection. */
  lemma NegativeAnswerFails(items: seq<Item>, sheet: Sheet, call: Call)
    requires Sound(items, sheet) && Try(items, sheet, call).Ok?
    requires match call
             case Add(given) => given.item < |items| && SaysNo(items[given.item].kind, given.boolean, given.passed)
             case Update(index, _, _, boolean, passed) =>
               index < |sheet.answers| && sheet.answers[index].item < |items|
               && SaysNo(items[sheet.answers[index].item].kind, boolean, passed)
             case _ => false
    ensures VerdictOf(Apply(items, sheet, call).answers) == Failed
  {
    CallAnswers(items, sheet, call);
    var after := Apply(items, sheet, call);
    FailedWhenSomeFailed(after.answers);
    match call
    case Add(_) =>
      assert after.answers[|sheet.answers|].passed == Some(false);
    case Update(index, text, number, boolean, passed) =>
      assert Merged(sheet.answers[index], text, number, boolean, passed,
                    Patched(sheet.answers[index], text, number, boolean, passed));
      assert after.answers[index].passed == Some(false);
  }

  /** The negative answer to a yes-no or a pass-fail item. */
  predicate SaysNo(kind: ItemType, boolean: Option<bool>, passed: Option<bool>) {
    (kind == YesNo && boolean == Some(false)) || (kind == PassFail && passed == Some(false))
  }

  // ---- Which numbers are averaged ----

  predicate Stray(items: seq<Item>, a: Answer) {
    a.number.Some? && a.item < |items| && items[a.item].kind != Score
  }

  predicate InTemplate(items: seq<Item>, answers: seq<Answer>) {
    forall i :: 0 <= i < |answers| ==> answers[i].item < |items|
  }

  /** The numbers of the answers to SCORE items, and those of all other answers. */
  function ScoreNumbers(items: seq<Item>, answers: seq<Answer>): seq<int> {
    if answers == [] then []
    else
      var a := answers[|answers| - 1];
      ScoreNumbers(items, answers[..|answers| - 1])
      + if a.number.Some? && a.item < |items| && items[a.item].kind == Score then [a.number.value] else []
  }

  function StrayNumbers(items: seq<Item>, answers: seq<Answer>): seq<int> {
    if answers == [] then []
    else
      var a := answers[|answers| - 1];
      StrayNumbers(items, answers[..|answers| - 1]) + if Stray(items, a) then [a.number.value] else []
  }

  /** Score and verdict as the documentation describes them: over the answers to SCORE items only. */
  function DocumentedScore(items: seq<Item>, answers: seq<Answer>): Option<int> {
    Mean(ScoreNumbers(items, answers))
  }

  function DocumentedVerdict(items: seq<Item>, answers: seq<Answer>): Verdict {
    VerdictFor(AnyFailed(answers), DocumentedScore(items, answers))
  }

  lemma {:induction false} NumbersSplit(items: seq<Item>, answers: seq<Answer>)
    requires InTemplate(items, answers)
    ensures |Numbers(answers)| == |ScoreNumbers(items, answers)| + |StrayNumbers(items, answers)|
    ensures Sum(Numbers(answers)) == Sum(ScoreNumbers(items, answers)) + Sum(StrayNumbers(items, answers))
  {
    if answers != [] {
      var init, last := answers[..|answers| - 1], answers[|answers| - 1];
      NumbersSplit(items, init);
      if last.number.None? {
        assert Numbers(answers) == Numbers(init) && ScoreNumbers(items, answers) == ScoreNumbers(items, init);
        assert StrayNumbers(items, answers) == StrayNumbers(items, init);
      } else {
        SumOneMore(Numbers(init), last.number.value);
        SumOneMore(ScoreNumbers(items, init), last.number.value);
        SumOneMore(StrayNumbers(items, init), last.number.value);
        if Stray(items, last) {
          assert ScoreNumbers(items, answers) == ScoreNumbers(items, init);
        } else {
          assert StrayNumbers(items, answers) == StrayNumbers(items, init);
        }
      }
    }
  }

  lemma SumOneMore(ns: seq<int>, n: int)
    ensures Sum(ns + [n]) == Sum(ns) + n
  {
    assert (ns + [n])[..|ns|] == ns;
  }

  lemma {:induction false} NoStrays(items: seq<Item>, answers: seq<Answer>)
    requires InTemplate(items, answers)
    ensures StrayNumbers(items, answers) == [] <==> forall i :: 0 <= i < |answers| ==> !Stray(items, answers[i])
    ensures StrayNumbers(items, answers) == [] ==> Numbers(answers) == ScoreNumbers(items, answers)
  {
    if answers != [] {
      var init, last := answers[..|answers| - 1], answers[|answers| - 1];
      NoStrays(items, init);
      assert forall i :: 0 <= i < |init| ==> answers[i] == init[i];
      if Stray(items, last) {
        assert Stray(items, answers[|init|]) && StrayNumbers(items, answers) != [];
      } else {
        assert StrayNumbers(items, answers) == StrayNumbers(items, init);
      }
    }
  }

  /** Where no other answer carries a number, score and verdict are the documented ones. */
  lemma AsDocumentedWithoutStrays(items: seq<Item>, answers: seq<Answer>)
    requires InTemplate(items, answers)
    requires forall i :: 0 <= i < |answers| ==> !Stray(items, answers[i])
    ensures ScoreOf(answers) == DocumentedScore(items, answers)
    ensures VerdictOf(answers) == DocumentedVerdict(items, answers)
  {
    NoStrays(items, answers);
  }

  /** Both without a mean, or with the same one before rounding. */
  predicate SameMean(a: seq<int>, b: seq<int>) {
    (a == [] <==> b == []) && Sum(a) * |b| == Sum(b) * |a|
  }

  /**
    Before rounding, the mean taken is the documented one exactly when the stray numbers have that mean themselves;
    with no SCORE answer, exactly when there is no stray number.
  */
  lemma MeanAsDocumented(items: seq<Item>, answers: seq<Answer>)
    requires InTemplate(items, answers)
    ensures var score, stray := ScoreNumbers(items, answers), StrayNumbers(items, answers);
            SameMean(Numbers(answers), score)
            <==> if score == [] then stray == [] else Sum(stray) * |score| == Sum(score) * |stray|
  {
    NumbersSplit(items, answers);
    var score, stray, all := ScoreNumbers(items, answers), StrayNumbers(items, answers), Numbers(answers);
    SameMeanSplits(Sum(score), |score|, Sum(stray), |stray|, Sum(all), |all|);
    if score == [] {
      assert Sum(all) * |score| == Sum(score) * |all|;
    }
  }

  lemma SameMeanSplits(x: int, m: int, y: int, n: int, sum: int, count: int)
    requires sum == x + y && count == m + n
    ensures sum * m == x * count <==> y * m == x * n
  {
    assert (x + y) * m == x * m + y * m;
    assert x * (m + n) == x * m + x * n;
  }

  /** Where a sum added to `sum` must lie for the mean of all `n` numbers to round to `h`. */
  predicate RoundsTo(h: int, sum: int, added: int, n: int) {
    var low, high := (2 * h - 1) * n - 2 * sum, (2 * h + 1) * n - 2 * sum;
    if h % 2 == 0 then low <= 2 * added <= high else low < 2 * added < high
  }

  /**
    The stored score is the documented one exactly when the stray numbers' sum lies in an interval about their share
    of that score: its ends belong to it when the score is even, and it is one hundredth per number averaged wide.
  */
  lemma ScoreAsDocumented(items: seq<Item>, answers: seq<Answer>)
    requires InTemplate(items, answers)
    ensures var score, stray := ScoreNumbers(items, answers), StrayNumbers(items, answers);
            ScoreOf(answers) == DocumentedScore(items, answers)
            <==> if score == [] then stray == []
                 else RoundsTo(HalfEven(Sum(score), |score|), Sum(score), Sum(stray), |score| + |stray|)
  {
    NumbersSplit(items, answers);
    MeanKept(ScoreNumbers(items, answers), StrayNumbers(items, answers), Numbers(answers));
  }

  lemma MeanKept(score: seq<int>, stray: seq<int>, all: seq<int>)
    requires |all| == |score| + |stray| && Sum(all) == Sum(score) + Sum(stray)
    ensures Mean(all) == Mean(score)
       <==> if score == [] then stray == []
            else RoundsTo(HalfEven(Sum(score), |score|), Sum(score), Sum(stray), |score| + |stray|)
  {
    if score != [] {
      RoundsToMeans(HalfEven(Sum(score), |score|), Sum(score), Sum(stray), |all|);
    }
  }

  lemma RoundsToMeans(h: int, sum: int, added: int, n: int)
    requires n > 0
    ensures RoundsTo(h, sum, added, n) <==> HalfEven(sum + added, n) == h
  {
    HalfEvenMeans(h, sum + added, n);
  }

  /** The sums that round to `h`. */
  lemma HalfEvenMeans(h: int, sum: int, n: int)
    requires n > 0
    ensures HalfEven(sum, n) == h
       <==> if h % 2 == 0 then (2 * h - 1) * n <= 2 * sum <= (2 * h + 1) * n
            else (2 * h - 1) * n < 2 * sum < (2 * h + 1) * n
  {
    HalfEvenIsNearest(sum, n);
    assert (2 * h - 1) * n == 2 * (h * n) - n && (2 * h + 1) * n == 2 * (h * n) + n;
    if Nearest(h, sum, n) {
      NearestIsUnique(sum, n, h, HalfEven(sum, n));
    }
  }

  /** No mean, or one that rounds to the threshold or above. */
  predicate Reaches(sum: int, n: nat) {
    n == 0 || 2 * sum >= 13999 * n
  }

  /** `n` further numbers do not carry the mean of `m` across the threshold. */
  predicate SameSide(sum: int, m: nat, stray: int, n: nat) {
    Reaches(sum + stray, m + n) <==> Reaches(sum, m)
  }

  /** The verdict is the documented one exactly when an answer failed or the strays do not cross the threshold. */
  lemma VerdictAsDocumented(items: seq<Item>, answers: seq<Answer>)
    requires InTemplate(items, answers)
    ensures var score, stray := ScoreNumbers(items, answers), StrayNumbers(items, answers);
            VerdictOf(answers) == DocumentedVerdict(items, answers)
            <==> || AnyFailed(answers)
                 || SameSide(Sum(score), |score|, Sum(stray), |stray|)
  {
    NumbersSplit(items, answers);
    VerdictKept(ScoreNumbers(items, answers), StrayNumbers(items, answers), Numbers(answers), AnyFailed(answers));
  }

  lemma VerdictKept(score: seq<int>, stray: seq<int>, all: seq<int>, failed: bool)
    requires |all| == |score| + |stray| && Sum(all) == Sum(score) + Sum(stray)
    ensures VerdictFor(failed, Mean(all)) == VerdictFor(failed, Mean(score))
       <==> failed || SameSide(Sum(score), |score|, Sum(stray), |stray|)
  {
    VerdictByReach(all, failed);
    VerdictByReach(score, failed);
  }

  lemma VerdictByReach(ns: seq<int>, failed: bool)
    ensures VerdictFor(failed, Mean(ns))
            == if failed then Failed else if Reaches(Sum(ns), |ns|) then Passed else NeedsAttention
  {
    if ns != [] {
      ThresholdInSums(Sum(ns), |ns|);
    }
  }

  /**
    A number on a pass/fail answer lifts an inspection scored 60.00 on its one SCORE item from
    NEEDS_ATTENTION to PASSED.
  */
  lemma StrayNumberChangesVerdict()
    ensures exists items: seq<Item>, calls: seq<Call> ::
              var sheet := Run(items, calls);
              && sheet.status == Submitted && sheet.verdict == Some(Passed)
              && DocumentedScore(items, sheet.answers) == Some(6000)
              && DocumentedVerdict(items, sheet.answers) == NeedsAttention
  {
    var items := [Item("floor", Score, true), Item("bins", PassFail, true)];
    var floor := Answer(0, "", Some(6000), None, Some(true), None);
    var bins := Answer(1, "", Some(10000), Some(true), Some(true), None);
    StrayRun(items, floor, bins);
    StrayTotals(floor, bins, items);
    assert Run(items, [Add(floor), Add(bins), Submit(0)]).status == Submitted;
  }

  lemma {:induction false} StrayRun(items: seq<Item>, floor: Answer, bins: Answer)
    requires |items| == 2 && items[0].kind == Score && items[1].kind == PassFail
    requires floor.item == 0 && floor.number == Some(6000) && floor.passed == Some(true) && floor.file == None
    requires bins.item == 1 && bins.number == Some(10000) && bins.passed == bins.boolean == Some(true)
             && bins.file == None
    ensures var sheet := Run(items, [Add(floor), Add(bins), Submit(0)]);
            sheet.status == Submitted && sheet.verdict == Some(Passed) && sheet.answers == [floor, bins]
  {
    var one, two := FRESH.(answers := [floor]), FRESH.(answers := [floor, bins]);
    RunOfThree(items, Add(floor), Add(bins), Submit(0));
    assert Apply(items, FRESH, Add(floor)) == one;
    assert AnswerTo([floor], 1) == None by {
      assert [floor][..0] == [];
    }
    assert Apply(items, one, Add(bins)) == two;
    StrayTotals(floor, bins, items);
    BothAnswered(floor, bins, items);
    Submits(items, two, 0, 8000);
  }

  lemma Submits(items: seq<Item>, sheet: Sheet, now: int, score: int)
    requires Editable(sheet.status) && Missing(items, sheet.answers, |items|) == []
    requires ScoreOf(sheet.answers) == Some(score) && ScoreFits(Some(score))
    ensures var sheet' := Apply(items, sheet, Submit(now));
            && sheet'.status == Submitted && sheet'.answers == sheet.answers
            && sheet'.verdict == Some(VerdictOf(sheet.answers))
  {
  }

  lemma RunOfThree(items: seq<Item>, c1: Call, c2: Call, c3: Call)
    ensures Run(items, [c1, c2, c3]) == Apply(items, Apply(items, Apply(items, FRESH, c1), c2), c3)
  {
    assert [c1, c2, c3][..2] == [c1, c2] && [c1, c2][..1] == [c1] && [c1][..0] == [];
    assert Run(items, [c1]) == Apply(items, Run(items, []), c1);
    assert Run(items, [c1, c2]) == Apply(items, Run(items, [c1]), c2);
  }

  lemma {:induction false} StrayTotals(floor: Answer, bins: Answer, items: seq<Item>)
    requires floor.number == Some(6000) && bins.number == Some(10000)
    requires floor.item == 0 && bins.item == 1
    requires |items| == 2 && items[0].kind == Score && items[1].kind == PassFail
    requires floor.passed == Some(true) && bins.passed == Some(true)
    ensures ScoreOf([floor, bins]) == Some(8000) && VerdictOf([floor, bins]) == Passed
    ensures DocumentedScore(items, [floor, bins]) == Some(6000)
    ensures DocumentedVerdict(items, [floor, bins]) == NeedsAttention
  {
    TwoNumbers(floor, bins);
    TwoSum(6000, 10000);
    assert !AnyFailed([floor, bins]);
    assert [floor, bins][..1] == [floor] && [floor][..0] == [];
    assert ScoreNumbers(items, [floor]) == [6000];
    assert ScoreNumbers(items, [floor, bins]) == [6000];
    assert Sum([6000]) == 6000;
  }

  lemma {:induction false} TwoNumbers(a: Answer, b: Answer)
    requires a.number.Some? && b.number.Some?
    ensures Numbers([a, b]) == [a.number.value, b.number.value]
  {
    assert [a, b][..1] == [a] && [a][..0] == [];
    assert Numbers([a]) == [a.number.value];
  }

  lemma {:induction false} TwoSum(x: int, y: int)
    ensures Sum([x, y]) == x + y
  {
    assert [x, y][..1] == [x] && [x][..0] == [];
    assert Sum([x]) == x;
  }

  lemma {:induction false} BothAnswered(floor: Answer, bins: Answer, items: seq<Item>)
    requires floor.number.Some? && bins.passed.Some? && floor.item == 0 && bins.item == 1
    requires |items| == 2 && items[0].kind == Score && items[1].kind == PassFail
    ensures Missing(items, [floor, bins], 2) == []
  {
    assert [floor, bins][..1] == [floor];
    assert AnswerTo([floor, bins], 1) == Some(bins);
    assert AnswerTo([floor], 0) == Some(floor);
    MissingNone(items, [floor, bins], 2);
  }

  // ---- The service ----

  class Inspector {
    const items: seq<Item>
    var status: Status
    var score: Option<int>
    var verdict: Option<Verdict>
    var answers: seq<Answer>
    var notes: string
    var submittedAt: Option<int>

    ghost function Contents(): Sheet
      reads this
    {
      Sheet(status, score, verdict, answers, notes, submittedAt)
    }

    constructor (items: seq<Item>)
      ensures this.items == items && Contents() == FRESH && Sound(items, Contents())
    {
      this.items := items;
      status, score, verdict, answers, notes, submittedAt := Draft, None, None, [], "", None;
    }

    /** The labels of required items without a completed answer. */
    method RequiredItemsMissing() returns (labels: seq<string>)
      ensures labels == Missing(items, answers, |items|)
    {
      labels := [];
      for n := 0 to |items|
        invariant labels == Missing(items, answers, n)
      {
        if items[n].required {
          var a := AnswerTo(answers, n);
          if a.None? {
            labels := labels + [items[n].itemLabel];
          } else if !Complete(items[n].kind, a.value) {
            labels := labels + [items[n].itemLabel];
          }
        }
      }
    }

    method AddResult(answer: Answer) returns (r: Result<(), Refusal>)
      requires Sound(items, Contents())
      modifies this
      ensures Sound(items, Contents()) && Contents() == Apply(items, old(Contents()), Add(answer))
      ensures r.Err? ==> Try(items, old(Contents()), Add(answer)) == Err(r.error)
      ensures r.Ok? ==> Editable(old(status)) && |answers| == |old(answers)| + 1
      ensures if r.Ok? then Done(items, old(Contents()), Add(answer), Contents())
              else Contents() == old(Contents())
    {
      CallAnswers(items, Contents(), Add(answer));
      ApplyKeepsSound(items, Contents(), Add(answer));
      if !Editable(status) {
        return Err(Immutable);
      }
      var cleaned := Cleaned(items, answer.(file := None));
      if cleaned.Err? {
        return Err(cleaned.error);
      }
      if AnswerTo(answers, cleaned.value.item).Some? {
        return Err(Duplicate);
      }
      answers := answers + [cleaned.value];
      return Ok(());
    }

    method UpdateResult(index: nat, text: Option<string>, number: Option<int>, boolean: Option<bool>,
                        passed: Option<bool>) returns (r: Result<(), Refusal>)
      requires Sound(items, Contents())
      modifies this
      ensures Sound(items, Contents())
      ensures Contents() == Apply(items, old(Contents()), Update(index, text, number, boolean, passed))
      ensures r.Err? ==> Try(items, old(Contents()), Update(index, text, number, boolean, passed)) == Err(r.error)
      ensures r.Ok? ==> Editable(old(status)) && |answers| == |old(answers)|
      ensures if r.Ok? then Done(items, old(Contents()), Update(index, text, number, boolean, passed), Contents())
              else Contents() == old(Contents())
    {
      CallAnswers(items, Contents(), Update(index, text, number, boolean, passed));
      ApplyKeepsSound(items, Contents(), Update(index, text, number, boolean, passed));
      if index >= |answers| {
        return Err(NotFound);
      }
      if !Editable(status) {
        return Err(Immutable);
      }
      var cleaned := Cleaned(items, Patched(answers[index], text, number, boolean, passed));
      if cleaned.Err? {
        return Err(cleaned.error);
      }
      answers := answers[index := cleaned.value];
      return Ok(());
    }

    method UploadPhoto(index: nat, file: string) returns (r: Result<(), Refusal>)
      requires Sound(items, Contents())
      modifies this
      ensures Sound(items, Contents()) && Contents() == Apply(items, old(Contents()), Upload(index, file))
      ensures r.Err? ==> Try(items, old(Contents()), Upload(index, file)) == Err(r.error)
      ensures r.Ok? ==> Editable(old(status)) && index < |answers| && answers[index].file == Some(file)
      ensures if r.Ok? then Done(items, old(Contents()), Upload(index, file), Contents())
              else Contents() == old(Contents())
    {
      CallAnswers(items, Contents(), Upload(index, file));
      ApplyKeepsSound(items, Contents(), Upload(index, file));
      if index >= |answers| {
        return Err(NotFound);
      }
      if !Editable(status) {
        return Err(Immutable);
      }
      var a := answers[index];
      if items[a.item].kind != Photo {
        return Err(NotPhotoItem);
      }
      answers := answers[index := a.(file := Some(file))];
      return Ok(());
    }

    method SaveAsDraft(newNotes: Option<string>) returns (r: Result<(), Refusal>)
      requires Sound(items, Contents())
      modifies this
      ensures Sound(items, Contents()) && Contents() == Apply(items, old(Contents()), SaveDraft(newNotes))
      ensures r.Err? ==> Try(items, old(Contents()), SaveDraft(newNotes)) == Err(r.error)
      ensures r.Ok? ==> score == ScoreOf(answers) && verdict == Some(VerdictOf(answers))
      ensures if r.Ok? then Done(items, old(Contents()), SaveDraft(newNotes), Contents())
              else Contents() == old(Contents())
    {
      CallAnswers(items, Contents(), SaveDraft(newNotes));
      ApplyKeepsSound(items, Contents(), SaveDraft(newNotes));
      if !Editable(status) {
        return Err(Immutable);
      }
      var newScore := ScoreOf(answers);
      if !ScoreFits(newScore) {
        return Err(ScoreTooWide);
      }
      if newNotes.Some? {
        notes := newNotes.value;
      }
      score, verdict := newScore, Some(VerdictOf(answers));
      return Ok(());
    }

    method SubmitSheet(now: int) returns (r: Result<(), Refusal>)
      requires Sound(items, Contents())
      modifies this
      ensures Sound(items, Contents()) && Contents() == Apply(items, old(Contents()), Submit(now))
      ensures r.Err? ==> Try(items, old(Contents()), Submit(now)) == Err(r.error)
      ensures r.Ok? ==> status == Submitted && submittedAt == Some(now) && Missing(items, answers, |items|) == []
      ensures if r.Ok? then Done(items, old(Contents()), Submit(now), Contents())
              else Contents() == old(Contents())
    {
      CallAnswers(items, Contents(), Submit(now));
      ApplyKeepsSound(items, Contents(), Submit(now));
      if status !in {Draft, Returned} {
        return Err(InvalidStatus);
      }
      var labels := RequiredItemsMissing();
      if labels != [] {
        return Err(Incomplete(labels));
      }
      var newScore := ScoreOf(answers);
      if !ScoreFits(newScore) {
        return Err(ScoreTooWide);
      }
      score, verdict, status, submittedAt := newScore, Some(VerdictOf(answers)), Submitted, Some(now);
      return Ok(());
    }

    method ReturnSheet(permitted: bool, reason: string) returns (r: Result<(), Refusal>)
      requires Sound(items, Contents())
      modifies this
      ensures Sound(items, Contents()) && Contents() == Apply(items, old(Contents()), Return(permitted, reason))
      ensures r.Err? ==> Try(items, old(Contents()), Return(permitted, reason)) == Err(r.error)
      ensures r.Ok? ==> status == Returned
      ensures if r.Ok? then Done(items, old(Contents()), Return(permitted, reason), Contents())
              else Contents() == old(Contents())
    {
      CallAnswers(items, Contents(), Return(permitted, reason));
      ApplyKeepsSound(items, Contents(), Return(permitted, reason));
      if !permitted {
        return Err(NotPermitted);
      }
      if status !in {Submitted, Reviewed} {
        return Err(InvalidStatus);
      }
      if Blank(reason) {
        return Err(ReasonRequired);
      }
      status := Returned;
      notes := WithLine(notes, "Returned: " + reason);
      return Ok(());
    }

    /** Recomputes score and verdict, as the service does; that they come out as stored is `ReviewOnlyConfirms`. */
    method ReviewSheet(permitted: bool) returns (r: Result<(), Refusal>)
      requires Sound(items, Contents())
      modifies this
      ensures Sound(items, Contents()) && Contents() == Apply(items, old(Contents()), Review(permitted))
      ensures r.Err? ==> Try(items, old(Contents()), Review(permitted)) == Err(r.error)
      ensures r.Ok? ==> Contents() == old(Contents()).(status := Reviewed)
      ensures if r.Ok? then Done(items, old(Contents()), Review(permitted), Contents())
              else Contents() == old(Contents())
    {
      CallAnswers(items, Contents(), Review(permitted));
      ApplyKeepsSound(items, Contents(), Review(permitted));
      if !permitted {
        return Err(NotPermitted);
      }
      if status != Submitted {
        return Err(InvalidStatus);
      }
      score, verdict, status := ScoreOf(answers), Some(VerdictOf(answers)), Reviewed;
      return Ok(());
    }
  }
}
