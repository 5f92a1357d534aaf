/**
  The interactive proposal generator: a session that is started, collects
  one answer per question, reports its progress and, once every question is
  answered, fills the proposal template with the answers. The JSON state file
  is the `Session` object; the question bank and the template, which the
  tools read from files, are parameters, `None` when the file cannot be read.
 */
module ProposalGenerator {
  import opened Wrappers
  import opened Text
  import opened Seqs

  datatype Question = Question(id: string, category: string, text: string)

  /** The question file: the announced number of questions and the list. */
  datatype QuestionBank = QuestionBank(total: nat, questions: seq<Question>)

  // ---------------------------------------------------------------- answers

  /** The answers, as a dictionary keeps them: pairs in insertion order. */
  type Answers = seq<(string, string)>

  function Ids(entries: Answers): (ids: seq<string>)
    ensures |ids| == |entries|
    ensures forall k :: 0 <= k < |entries| ==> ids[k] == entries[k].0
  {
    if entries == [] then [] else [entries[0].0] + Ids(entries[1..])
  }

  /** `answers.get(id)`. */
  function Lookup(entries: Answers, id: string): (r: Option<string>)
    ensures r.None? <==> id !in Ids(entries)
  {
    if entries == [] then None
    else if entries[0].0 == id then Some(entries[0].1)
    else Lookup(entries[1..], id)
  }

  /** `answers[id] = answer`: an existing entry keeps its place and takes the
      new answer, a new one is added at the end. */
  function Put(entries: Answers, id: string, answer: string): (r: Answers)
    ensures |r| == if id in Ids(entries) then |entries| else |entries| + 1
  {
    if entries == [] then [(id, answer)]
    else if entries[0].0 == id then [(id, answer)] + entries[1..]
    else [entries[0]] + Put(entries[1..], id, answer)
  }

  /** After storing, the id gives the new answer and every other id what it
      gave before. */
  lemma {:induction false} PutLookup(entries: Answers, id: string, answer: string, other: string)
    ensures Lookup(Put(entries, id, answer), other) == if other == id then Some(answer) else Lookup(entries, other)
  {
    if entries != [] && entries[0].0 != id {
      PutLookup(entries[1..], id, answer, other);
    }
  }

  /** Storing keeps the order of the ids and adds a new id at the end. */
  lemma {:induction false} PutIds(entries: Answers, id: string, answer: string)
    ensures Ids(Put(entries, id, answer)) == if id in Ids(entries) then Ids(entries) else Ids(entries) + [id]
  {
    if entries != [] && entries[0].0 != id {
      var rest := Put(entries[1..], id, answer);
      PutIds(entries[1..], id, answer);
      assert Ids([entries[0]] + rest) == [entries[0].0] + Ids(rest);
      assert Ids(entries) == [entries[0].0] + Ids(entries[1..]);
    }
  }

  /** Storing an answer keeps the ids distinct. */
  lemma PutNoDups(entries: Answers, id: string, answer: string)
    requires NoDups(Ids(entries))
    ensures NoDups(Ids(Put(entries, id, answer)))
  {
    PutIds(entries, id, answer);
    var ids := Ids(entries);
    if id !in ids {
      var r := ids + [id];
      forall i, j | 0 <= i < j < |r| ensures r[i] != r[j] {
        if j == |ids| {
          assert r[i] == ids[i];
        }
      }
    }
  }

  // ---------------------------------------------------------------- display

  const BarCells := 20

  /** `"█" * (progress // 5) + "░" * (20 - progress // 5)`. */
  function ProgressBar(progress: nat): (bar: string)
    ensures progress <= 100 ==> |bar| == BarCells
    ensures forall i :: 0 <= i < |bar| ==> (bar[i] == '█' <==> i < progress / 5)
    ensures forall i :: 0 <= i < |bar| ==> (bar[i] == '░' <==> i >= progress / 5)
  {
    Repeat('█', progress / 5) + Repeat('░', BarCells - progress / 5)
  }

  const ShownAnswerLength := 50

  /** An answer as `get_progress` shows it: answers longer than 50
      characters are cut to 50 and marked with "...". */
  function Shorten(answer: string): (r: string)
    ensures |answer| <= ShownAnswerLength ==> r == answer
    ensures |answer| > ShownAnswerLength ==>
              |r| == ShownAnswerLength + 3 && StartsWith(answer, r[..ShownAnswerLength]) && r[ShownAnswerLength..] == "..."
  {
    if |answer| > ShownAnswerLength then answer[..ShownAnswerLength] + "..." else answer
  }

  /** `q` has an answer and `item` shows it. */
  predicate ShowsAnswer(q: Question, entries: Answers, item: (string, string)) {
    Lookup(entries, q.id).Some? && item == (q.text, Shorten(Lookup(entries, q.id).value))
  }

  /** The answered questions in question order, each with its shortened answer. */
  function AnsweredList(questions: seq<Question>, entries: Answers): (r: seq<(string, string)>)
    ensures |r| <= |questions|
  {
    if questions == [] then []
    else
      var init := questions[..|questions| - 1];
      var q := questions[|questions| - 1];
      AnsweredList(init, entries) + (match Lookup(entries, q.id) case Some(a) => [(q.text, Shorten(a))] case None => [])
  }

  /** A question is listed exactly when it has an answer, and is listed with
      that answer. */
  lemma AnsweredListExactly(questions: seq<Question>, entries: Answers, item: (string, string))
    ensures item in AnsweredList(questions, entries) <==>
              exists i :: 0 <= i < |questions| && ShowsAnswer(questions[i], entries, item)
  {
    if item in AnsweredList(questions, entries) {
      AnsweredListSound(questions, entries, item);
    }
    if exists i :: 0 <= i < |questions| && ShowsAnswer(questions[i], entries, item) {
      var i :| 0 <= i < |questions| && ShowsAnswer(questions[i], entries, item);
      AnsweredListComplete(questions, entries, item, i);
    }
  }

  /** Every answered question is listed with its shortened answer. */
  lemma {:induction false} AnsweredListComplete(questions: seq<Question>, entries: Answers, item: (string, string), i: nat)
    requires i < |questions| && ShowsAnswer(questions[i], entries, item)
    ensures item in AnsweredList(questions, entries)
  {
    var n := |questions| - 1;
    if i < n {
      assert questions[..n][i] == questions[i];
      AnsweredListComplete(questions[..n], entries, item, i);
    }
  }

  /** Every listed item shows the answer of some answered question. */
  lemma {:induction false} AnsweredListSound(questions: seq<Question>, entries: Answers, item: (string, string))
    requires item in AnsweredList(questions, entries)
    ensures exists i :: 0 <= i < |questions| && ShowsAnswer(questions[i], entries, item)
  {
    var n := |questions| - 1;
    var init := questions[..n];
    if item in AnsweredList(init, entries) {
      AnsweredListSound(init, entries, item);
      var i :| 0 <= i < n && ShowsAnswer(init[i], entries, item);
      assert questions[i] == init[i];
    } else {
      assert ShowsAnswer(questions[n], entries, item);
    }
  }

  // ---------------------------------------------------------------- template

  /** `"{{" + id + "}}"`. */
  function Placeholder(id: string): (p: string)
    ensures StartsWith(p, "{{") && |p| == |id| + 4
  {
    "{{" + id + "}}"
  }

  /** Every answer's placeholder replaced by the answer, in answer order. */
  function Substitute(template: string, entries: Answers): string {
    if entries == [] then template
    else
      var init := entries[..|entries| - 1];
      var e := entries[|entries| - 1];
      Replace(Substitute(template, init), Placeholder(e.0), e.1)
  }

  const DefaultTitle := "創新研發計畫"

  /** The project title: the first 30 characters of the solution
      description, or of the default title, followed by "...". */
  function ProjectTitle(entries: Answers): (t: string)
    ensures 3 <= |t| <= 33 && t[|t| - 3..] == "..."
    ensures StartsWith(Lookup(entries, "solution_description").GetOr(DefaultTitle), t[..|t| - 3])
    ensures var source := Lookup(entries, "solution_description").GetOr(DefaultTitle);
            |t| - 3 == if |source| <= 30 then |source| else 30
  {
    Take(Lookup(entries, "solution_description").GetOr(DefaultTitle), 30) + "..."
  }

  /** The first 50 characters of the problem description, empty without one. */
  function ProblemSummary(entries: Answers): (t: string)
    ensures |t| <= 50 && StartsWith(Lookup(entries, "problem_description").GetOr(""), t)
    ensures var source := Lookup(entries, "problem_description").GetOr("");
            |t| == if |source| <= 50 then |source| else 50
    ensures Lookup(entries, "problem_description").None? ==> t == ""
  {
    Take(Lookup(entries, "problem_description").GetOr(""), 50)
  }

  /** The filled proposal. */
  function Compose(template: string, entries: Answers): string {
    var p := Substitute(template, entries);
    Replace(Replace(p, "{{project_title}}", ProjectTitle(entries)), "{{problem_summary}}", ProblemSummary(entries))
  }

  /** A template without any "{{" has no placeholder and comes out unchanged. */
  lemma {:induction false} SubstituteNoPlaceholder(template: string, entries: Answers)
    requires !Contains(template, "{{")
    ensures Substitute(template, entries) == template
  {
    if entries != [] {
      var init := entries[..|entries| - 1];
      var e := entries[|entries| - 1];
      SubstituteNoPlaceholder(template, init);
      if Contains(template, Placeholder(e.0)) {
        ContainsStart(template, "{{", Placeholder(e.0));
      }
      ReplaceAbsent(template, Placeholder(e.0), e.1);
    }
  }

  lemma ComposeNoPlaceholder(template: string, entries: Answers)
    requires !Contains(template, "{{")
    ensures Compose(template, entries) == template
  {
    SubstituteNoPlaceholder(template, entries);
    if Contains(template, "{{project_title}}") {
      ContainsStart(template, "{{", "{{project_title}}");
    }
    ReplaceAbsent(template, "{{project_title}}", ProjectTitle(entries));
    if Contains(template, "{{problem_summary}}") {
      ContainsStart(template, "{{", "{{problem_summary}}");
    }
    ReplaceAbsent(template, "{{problem_summary}}", ProblemSummary(entries));
  }

  /** A text without "{" holds nothing that starts with "{", such as a
      placeholder. */
  lemma NoBraceNoPlaceholder(s: string, p: string)
    requires '{' !in s && p != [] && p[0] == '{'
    ensures !Contains(s, p)
  {
    forall j | 0 <= j <= |s| - |p| ensures !OccursAt(s, p, j) {
      assert s[j..j + |p|][0] == s[j] && s[j] in s;
    }
  }

  /** The only "{" of a template without other braces are the two that open
      its placeholder. */
  lemma TemplateBraces(pre: string, id: string, post: string)
    requires '{' !in pre && '{' !in post && '{' !in id
    ensures forall k :: 0 <= k < |pre + Placeholder(id) + post| && k != |pre| && k != |pre| + 1 ==>
              (pre + Placeholder(id) + post)[k] != '{'
  {
    var t := pre + Placeholder(id) + post;
    var n := |pre|;
    forall k | 0 <= k < |t| && k != n && k != n + 1 ensures t[k] != '{' {
      if k < n {
        assert t[k] == pre[k] && pre[k] in pre;
      } else if k < n + 2 + |id| {
        assert t[k] == id[k - n - 2] && id[k - n - 2] in id;
      } else if k < n + 4 + |id| {
        assert t[k] == '}';
      } else {
        assert t[k] == post[k - n - 4 - |id|] && post[k - n - 4 - |id|] in post;
      }
    }
  }

  /** In a template whose only "{" are those of the placeholder of `id`, the
      placeholder of no other brace-free id occurs. */
  lemma OnlyPlaceholder(pre: string, id: string, post: string, other: string)
    requires '{' !in pre && '{' !in post && '{' !in id && '}' !in id && '}' !in other
    requires other != id
    ensures !Contains(pre + Placeholder(id) + post, Placeholder(other))
  {
    var t := pre + Placeholder(id) + post;
    var p := Placeholder(other);
    var n := |pre|;
    TemplateBraces(pre, id, post);
    forall j | 0 <= j <= |t| - |p| ensures !OccursAt(t, p, j) {
      var w := t[j..j + |p|];
      assert w[0] == t[j] && w[1] == t[j + 1];
      if j == n {
        if |other| < |id| {
          assert w[2 + |other|] == id[|other|] && id[|other|] in id;
          assert p[2 + |other|] == '}';
        } else if |other| > |id| {
          assert w[2 + |id|] == '}';
          assert p[2 + |id|] == other[|id|] && other[|id|] in other;
        } else {
          var m :| 0 <= m < |id| && other[m] != id[m];
          assert w[2 + m] == id[m] && p[2 + m] == other[m];
        }
      }
    }
  }

  /** Replacing the placeholder of a template whose only "{" are those of
      the placeholder. */
  lemma ReplaceOnlyPlaceholder(pre: string, id: string, post: string, answer: string)
    requires '{' !in pre && '{' !in post
    ensures Replace(pre + Placeholder(id) + post, Placeholder(id), answer) == pre + answer + post
  {
    var t := pre + Placeholder(id) + post;
    var p := Placeholder(id);
    assert t[|pre|..|pre| + |p|] == p;
    forall j | 0 <= j < |pre| ensures !OccursAt(t, p, j) {
      assert t[j..j + |p|][0] == t[j] == pre[j] && pre[j] in pre;
    }
    ReplaceAtFirst(t, p, answer, |pre|);
    assert t[..|pre|] == pre;
    assert t[|pre| + |p|..] == post;
    NoBraceNoPlaceholder(post, p);
    ReplaceAbsent(post, p, answer);
    ConcatAssoc(pre, answer, post);
  }

  /** A stored answer is one of the entries. */
  lemma {:induction false} LookupFound(entries: Answers, id: string)
    requires Lookup(entries, id).Some?
    ensures exists k :: 0 <= k < |entries| && entries[k] == (id, Lookup(entries, id).value)
  {
    if entries[0].0 != id {
      LookupFound(entries[1..], id);
      var k :| 0 <= k < |entries[1..]| && entries[1..][k] == (id, Lookup(entries, id).value);
      assert entries[k + 1] == entries[1..][k];
    }
  }

  /** Looking up after one more entry. */
  lemma {:induction false} LookupAppend(init: Answers, e: (string, string), id: string)
    ensures Lookup(init + [e], id) ==
              if Lookup(init, id).Some? then Lookup(init, id) else if e.0 == id then Some(e.1) else None
  {
    if init != [] {
      assert (init + [e])[1..] == init[1..] + [e];
      LookupAppend(init[1..], e, id);
    }
  }

  /** The placeholder of an answered question is replaced by its answer, and
      the placeholder of an unanswered one stays, in a template whose only
      "{" are those of that placeholder, when ids hold no braces and answers
      no "{". */
  lemma {:induction false} SubstituteOnePlaceholder(pre: string, id: string, post: string, entries: Answers)
    requires '{' !in pre && '{' !in post && '{' !in id && '}' !in id
    requires NoDups(Ids(entries))
    requires forall k :: 0 <= k < |entries| ==> '}' !in entries[k].0 && '{' !in entries[k].1
    ensures Substitute(pre + Placeholder(id) + post, entries) ==
              match Lookup(entries, id)
              case None => pre + Placeholder(id) + post
              case Some(a) => pre + a + post
  {
    var t := pre + Placeholder(id) + post;
    if entries != [] {
      var init := entries[..|entries| - 1];
      var e := entries[|entries| - 1];
      assert entries == init + [e];
      SubstituteOnePlaceholder(pre, id, post, init);
      LookupAppend(init, e, id);
      match Lookup(init, id)
      case Some(a) =>
        LookupFound(init, id);
        assert id in Ids(init);
        assert e.0 != id;
        assert '{' !in pre + a + post;
        NoBraceNoPlaceholder(pre + a + post, Placeholder(e.0));
        ReplaceAbsent(pre + a + post, Placeholder(e.0), e.1);
      case None =>
        if e.0 == id {
          ReplaceOnlyPlaceholder(pre, id, post, e.1);
        } else {
          OnlyPlaceholder(pre, id, post, e.0);
          ReplaceAbsent(t, Placeholder(e.0), e.1);
        }
    }
  }

  /** The filled proposal of such a template holds the answer where the
      placeholder was. */
  lemma ComposeOnePlaceholder(pre: string, id: string, post: string, entries: Answers)
    requires '{' !in pre && '{' !in post && '{' !in id && '}' !in id
    requires NoDups(Ids(entries)) && Lookup(entries, id).Some?
    requires forall k :: 0 <= k < |entries| ==> '}' !in entries[k].0 && '{' !in entries[k].1
    ensures Compose(pre + Placeholder(id) + post, entries) == pre + Lookup(entries, id).value + post
  {
    var filled := pre + Lookup(entries, id).value + post;
    assert '{' !in filled by {
      LookupFound(entries, id);
    }
    var title, summary := ProjectTitle(entries), ProblemSummary(entries);
    calc {
      Compose(pre + Placeholder(id) + post, entries);
      Replace(Replace(Substitute(pre + Placeholder(id) + post, entries), "{{project_title}}", title),
              "{{problem_summary}}", summary);
    == { SubstituteOnePlaceholder(pre, id, post, entries); }
      Replace(Replace(filled, "{{project_title}}", title), "{{problem_summary}}", summary);
    == { NoBraceNoPlaceholder(filled, "{{project_title}}");
         ReplaceAbsent(filled, "{{project_title}}", title); }
      Replace(filled, "{{problem_summary}}", summary);
    == { NoBraceNoPlaceholder(filled, "{{problem_summary}}");
         ReplaceAbsent(filled, "{{problem_summary}}", summary); }
      filled;
    }
  }

  // ---------------------------------------------------------------- session

  datatype StartOutcome = LoadFailed | Started(total: nat, first: Question) | NoFirstQuestion
  datatype SaveOutcome = SaveNotStarted | SaveFailed | AllAnswered(answered: nat, total: nat)
                       | NextQuestion(number: nat, question: Question, progress: nat, bar: string)
  datatype ProgressOutcome = ProgressNotStarted | ProgressFailed
                           | Report(progress: nat, bar: string, answered: seq<(string, string)>, next: Option<nat>)
  datatype GenerateOutcome = GenerateNotStarted | Incomplete(answered: nat, total: nat) | GenerateFailed
                           | Generated(proposal: string)

  /** The saved generator state; `started` is false while no state file exists. */
  class Session {
    var started: bool
    var phase: string
    var currentQuestion: nat
    var totalQuestions: nat
    var entries: Answers
    var completed: bool

    /** The next question is the one after the answers given, the ids are
        distinct, and a completed session has an answer for every question. */
    ghost predicate Valid()
      reads this
    {
      started ==>
        && NoDups(Ids(entries))
        && currentQuestion == |entries| + 1
        && (completed ==> |entries| >= totalQuestions)
    }

    constructor()
      ensures Valid() && !started
    {
      started := false;
      phase := "";
      currentQuestion := 1;
      totalQuestions := 0;
      entries := [];
      completed := false;
    }

    /** `start_proposal_generator`: a fresh state at question 1. An
        unreadable question file changes nothing; an empty question list
        fails after the state is saved. */
    method Start(newPhase: string, bank: Option<QuestionBank>) returns (outcome: StartOutcome)
      requires Valid()
      modifies this
      ensures Valid()
      ensures bank.None? ==> outcome == LoadFailed && unchanged(this)
      ensures bank.Some? ==>
                && started && phase == newPhase && currentQuestion == 1 && totalQuestions == bank.value.total
                && entries == [] && !completed
      ensures bank.Some? && bank.value.questions != [] ==> outcome == Started(bank.value.total, bank.value.questions[0])
      ensures bank.Some? && bank.value.questions == [] ==> outcome == NoFirstQuestion
    {
      if bank.None? {
        return LoadFailed;
      }
      started, phase, currentQuestion, totalQuestions, entries, completed :=
        true, newPhase, 1, bank.value.total, [], false;
      if bank.value.questions == [] {
        outcome := NoFirstQuestion;
      } else {
        outcome := Started(bank.value.total, bank.value.questions[0]);
      }
    }

    /** `save_answer`: the answer is stored under its id and the current
        question becomes the one after the answers. When that passes the
        total the session is completed; otherwise the next question is shown
        with the progress. Without a state, or when the question file or the
        next question is missing, nothing is saved. */
    method SaveAnswer(id: string, answer: string, bank: Option<QuestionBank>) returns (outcome: SaveOutcome)
      requires Valid()
      modifies this
      ensures Valid()
      ensures !old(started) ==> outcome == SaveNotStarted && unchanged(this)
      ensures outcome.SaveFailed? ==> unchanged(this)
      // the two ways a started session fails: no question bank, or no
      // question at the next position although questions remain
      ensures old(started) && bank.None? ==> outcome == SaveFailed
      ensures old(started) && bank.Some? &&
              |bank.value.questions| <= |Put(old(entries), id, answer)| < old(totalQuestions) ==>
                outcome == SaveFailed
      ensures old(started) && bank.Some? &&
              |Put(old(entries), id, answer)| < old(totalQuestions) &&
              |Put(old(entries), id, answer)| < |bank.value.questions| ==>
                outcome.NextQuestion?
      ensures old(started) && bank.Some? && |Put(old(entries), id, answer)| >= old(totalQuestions) ==>
                outcome == AllAnswered(|entries|, totalQuestions)
      ensures old(started) && bank.Some? && |Put(old(entries), id, answer)| < |bank.value.questions| ==>
                !outcome.SaveFailed?
      ensures old(started) && !outcome.SaveFailed? ==>
                && entries == Put(old(entries), id, answer)
                && currentQuestion == |entries| + 1
                && completed == (currentQuestion > totalQuestions)
                && started && phase == old(phase) && totalQuestions == old(totalQuestions)
      ensures outcome.AllAnswered? ==> completed
      ensures outcome.NextQuestion? ==>
                && bank.Some? && !completed && currentQuestion == outcome.number
                && 0 < currentQuestion <= |bank.value.questions|
                && outcome.question == bank.value.questions[currentQuestion - 1]
                && 0 < totalQuestions && outcome.progress == Percent(|entries|, totalQuestions)
                && outcome.bar == ProgressBar(outcome.progress)
      // the answer count never shrinks and a completed session stays completed
      ensures |entries| >= old(|entries|) && (old(completed) ==> completed)
      // answering a question again does not move on
      ensures old(started) && id in Ids(old(entries)) ==> currentQuestion == old(currentQuestion)
    {
      if !started {
        return SaveNotStarted;
      }
      PutNoDups(entries, id, answer);
      var newEntries := Put(entries, id, answer);
      var next := |newEntries| + 1;
      if bank.None? {
        return SaveFailed;
      }
      if next > totalQuestions {
        entries, currentQuestion, completed := newEntries, next, true;
        return AllAnswered(|newEntries|, totalQuestions);
      }
      if next - 1 >= |bank.value.questions| {
        return SaveFailed;
      }
      entries, currentQuestion := newEntries, next;
      var progress := Percent(|entries|, totalQuestions);
      outcome := NextQuestion(next, bank.value.questions[next - 1], progress, ProgressBar(progress));
    }

    /** `get_progress`: the progress, the answered questions in question
        order and the next question number, or none when completed. With no
        questions announced the percentage cannot be computed. */
    method GetProgress(bank: Option<QuestionBank>) returns (outcome: ProgressOutcome)
      requires Valid()
      ensures !started ==> outcome == ProgressNotStarted
      ensures started && (totalQuestions == 0 || bank.None?) ==> outcome == ProgressFailed
      ensures started && totalQuestions > 0 && bank.Some? ==>
                && outcome.Report?
                && outcome.progress == Percent(|entries|, totalQuestions)
                && outcome.bar == ProgressBar(outcome.progress)
                && outcome.answered == AnsweredList(bank.value.questions, entries)
                && (outcome.next.None? <==> completed)
                && (outcome.next.Some? ==> outcome.next.value == currentQuestion)
    {
      if !started {
        return ProgressNotStarted;
      }
      if totalQuestions == 0 || bank.None? {
        return ProgressFailed;
      }
      var progress := Percent(|entries|, totalQuestions);
      var questions := bank.value.questions;
      var answered: seq<(string, string)> := [];
      for i := 0 to |questions|
        invariant answered == AnsweredList(questions[..i], entries)
      {
        assert questions[..i + 1][..i] == questions[..i];
        var q := questions[i];
        var a := Lookup(entries, q.id);
        if a.Some? {
          answered := answered + [(q.text, Shorten(a.value))];
        }
      }
      assert questions[..|questions|] == questions;
      var next := if completed then None else Some(currentQuestion);
      outcome := Report(progress, ProgressBar(progress), answered, next);
    }

    /** `generate_proposal`: refused until every question is answered;
        then each answer replaces its placeholder, in answer order, and the
        title and summary placeholders are filled. */
    method Generate(template: Option<string>) returns (outcome: GenerateOutcome)
      requires Valid()
      ensures !started ==> outcome == GenerateNotStarted
      ensures started && !completed ==> outcome == Incomplete(|entries|, totalQuestions)
      ensures started && completed && template.None? ==> outcome == GenerateFailed
      ensures started && completed && template.Some? ==> outcome == Generated(Compose(template.value, entries))
      ensures outcome.Generated? ==> |entries| >= totalQuestions
    {
      if !started {
        return GenerateNotStarted;
      }
      if !completed {
        return Incomplete(|entries|, totalQuestions);
      }
      if template.None? {
        return GenerateFailed;
      }
      var proposal := template.value;
      for i := 0 to |entries|
        invariant proposal == Substitute(template.value, entries[..i])
      {
        assert entries[..i + 1][..i] == entries[..i];
        proposal := Replace(proposal, Placeholder(entries[i].0), entries[i].1);
      }
      assert entries[..|entries|] == entries;
      proposal := Replace(proposal, "{{project_title}}", ProjectTitle(entries));
      proposal := Replace(proposal, "{{problem_summary}}", ProblemSummary(entries));
      outcome := Generated(proposal);
    }
  }
}
