/** The Pathfinder screen: the four-step goal wizard, the expanded month,
    the optimistic topic-completion toggle and the overall progress. */
module PathfinderPage {
  import opened Wrappers
  import opened Records

  const FirstStep: int := 1
  const LastStep: int := 4

  /** What a wizard button does besides moving the step. */
  datatype WizardEffect = NoEffect | StartGeneration | NavigateHome

  predicate ValidStep(step: int) {
    FirstStep <= step <= LastStep
  }

  /** `handleNext`: forward one step, or start generating on the last one. */
  function Next(step: int): (r: (int, WizardEffect))
    ensures step < LastStep ==> r == (step + 1, NoEffect)
    ensures step >= LastStep ==> r == (step, StartGeneration)
    ensures ValidStep(step) ==> ValidStep(r.0)
  {
    if step < LastStep then (step + 1, NoEffect) else (step, StartGeneration)
  }

  /** `handleBack`: back one step, or leave for the home page on the first. */
  function Back(step: int): (r: (int, WizardEffect))
    ensures step > FirstStep ==> r == (step - 1, NoEffect)
    ensures step <= FirstStep ==> r == (step, NavigateHome)
    ensures ValidStep(step) ==> ValidStep(r.0)
  {
    if step > FirstStep then (step - 1, NoEffect) else (step, NavigateHome)
  }

  /** Forward then back, or back then forward, returns to the same step
      whenever neither press left the wizard. */
  lemma NextBackRoundTrip(step: int)
    ensures ValidStep(step) && step < LastStep ==> Back(Next(step).0) == (step, NoEffect)
    ensures ValidStep(step) && step > FirstStep ==> Next(Back(step).0) == (step, NoEffect)
  {
  }

  /** `toggleMonth`: open the month, or close it if it is the open one. */
  function ToggleMonth(expanded: Option<int>, id: int): (r: Option<int>)
    ensures r == Some(id) <==> expanded != Some(id)
    ensures r != Some(id) ==> r.None?
  {
    if expanded == Some(id) then None else Some(id)
  }

  /** Toggling the same month twice restores the state when that month was
      open or none was. */
  lemma ToggleMonthTwice(expanded: Option<int>, id: int)
    requires expanded.None? || expanded == Some(id)
    ensures ToggleMonth(ToggleMonth(expanded, id), id) == expanded
  {
  }

  /** `topics.find(t => t.id === topicId)`, as a position. */
  function FindTopic(topics: seq<Topic>, topicId: string): (r: Option<nat>)
    ensures r.Some? ==> r.value < |topics| && topics[r.value].id == topicId
                        && forall j :: 0 <= j < r.value ==> topics[j].id != topicId
    ensures r.None? ==> forall j :: 0 <= j < |topics| ==> topics[j].id != topicId
  {
    if topics == [] then None
    else if topics[0].id == topicId then Some(0)
    else
      var rest := FindTopic(topics[1..], topicId);
      if rest.Some? then Some(rest.value + 1) else None
  }

  /** The first month holding a topic with that id. */
  function FindMonth(months: seq<Month>, topicId: string): (r: Option<nat>)
    ensures r.Some? ==> r.value < |months| && FindTopic(months[r.value].topics, topicId).Some?
                        && forall i :: 0 <= i < r.value ==> FindTopic(months[i].topics, topicId).None?
    ensures r.None? ==> forall i :: 0 <= i < |months| ==> FindTopic(months[i].topics, topicId).None?
  {
    if months == [] then None
    else if FindTopic(months[0].topics, topicId).Some? then Some(0)
    else
      var rest := FindMonth(months[1..], topicId);
      if rest.Some? then Some(rest.value + 1) else None
  }

  function Flip(t: Topic): Topic {
    t.(completed := !t.completed)
  }

  /** The months after the toggle: the first topic with that id, in the
      first month that has one, has its flag flipped. */
  function ToggleTopic(months: seq<Month>, topicId: string): (r: seq<Month>)
    ensures |r| == |months|
    ensures FindMonth(months, topicId).None? ==> r == months
    ensures FindMonth(months, topicId).Some? ==>
      var i := FindMonth(months, topicId).value;
      var j := FindTopic(months[i].topics, topicId).value;
      && (forall k :: 0 <= k < |months| && k != i ==> r[k] == months[k])
      && r[i].topics == months[i].topics[j := Flip(months[i].topics[j])]
      && r[i] == months[i].(topics := r[i].topics)
  {
    var i := FindMonth(months, topicId);
    if i.None? then months
    else
      var m := months[i.value];
      var j := FindTopic(m.topics, topicId).value;
      months[i.value := m.(topics := m.topics[j := Flip(m.topics[j])])]
  }

  /** Toggling a topic keeps every id, so the same topic and month are found
      afterwards. */
  lemma ToggleKeepsFinds(months: seq<Month>, topicId: string)
    ensures var once := ToggleTopic(months, topicId);
      && (forall k :: 0 <= k < |months| ==> FindTopic(once[k].topics, topicId) == FindTopic(months[k].topics, topicId))
      && FindMonth(once, topicId) == FindMonth(months, topicId)
  {
    var once := ToggleTopic(months, topicId);
    var found := FindMonth(months, topicId);
    forall k | 0 <= k < |months| ensures FindTopic(once[k].topics, topicId) == FindTopic(months[k].topics, topicId) {
      if found.Some? && k == found.value {
        assert forall t :: 0 <= t < |months[k].topics| ==> once[k].topics[t].id == months[k].topics[t].id;
      }
      SameIdsSameFind(months[k].topics, once[k].topics, topicId);
    }
    SameFindSameMonth(months, once, topicId);
  }

  /** Toggling a topic twice restores every completion flag. */
  lemma ToggleTopicTwice(months: seq<Month>, topicId: string)
    ensures ToggleTopic(ToggleTopic(months, topicId), topicId) == months
  {
    var once := ToggleTopic(months, topicId);
    var found := FindMonth(months, topicId);
    ToggleKeepsFinds(months, topicId);
    if found.Some? {
      var i := found.value;
      var twice := ToggleTopic(once, topicId);
      assert twice[i].topics == months[i].topics;
      assert twice[i] == months[i];
      assert forall k :: 0 <= k < |months| ==> twice[k] == months[k];
    }
  }

  /** Topic lists with the same ids in the same places find the same topic. */
  lemma {:induction false} SameIdsSameFind(a: seq<Topic>, b: seq<Topic>, topicId: string)
    requires |a| == |b| && forall j :: 0 <= j < |a| ==> a[j].id == b[j].id
    ensures FindTopic(a, topicId) == FindTopic(b, topicId)
  {
    if a != [] {
      SameIdsSameFind(a[1..], b[1..], topicId);
    }
  }

  /** Month lists whose topic lists find the same topics find the same month. */
  lemma {:induction false} SameFindSameMonth(a: seq<Month>, b: seq<Month>, topicId: string)
    requires |a| == |b|
    requires forall k :: 0 <= k < |a| ==> FindTopic(a[k].topics, topicId) == FindTopic(b[k].topics, topicId)
    ensures FindMonth(a, topicId) == FindMonth(b, topicId)
  {
    if a != [] {
      SameFindSameMonth(a[1..], b[1..], topicId);
    }
  }

  /** `toggleTopicCompletion`'s optimistic update: walk the months and stop
      at the first one whose topics contain the id. Returns the months to
      show and whether the topic was found. */
  method ToggleTopicCompletion(months: seq<Month>, topicId: string) returns (updated: seq<Month>, found: bool)
    ensures updated == ToggleTopic(months, topicId)
    ensures found <==> FindMonth(months, topicId).Some?
  {
    updated := months;
    found := false;
    var i := 0;
    while i < |updated|
      invariant 0 <= i <= |months|
      invariant updated == months && !found
      invariant forall k :: 0 <= k < i ==> FindTopic(months[k].topics, topicId).None?
    {
      var month := updated[i];
      var topic := FindTopic(month.topics, topicId);
      if topic.Some? {
        var j := topic.value;
        updated := updated[i := month.(topics := month.topics[j := Flip(month.topics[j])])];
        found := true;
        break;
      }
      i := i + 1;
    }
  }

  /** The number of completed topics in one month. */
  function CompletedIn(topics: seq<Topic>): (n: nat)
    ensures n <= |topics|
    ensures n == |topics| <==> forall j :: 0 <= j < |topics| ==> topics[j].completed
  {
    if topics == [] then 0
    else CompletedIn(topics[..|topics| - 1]) + (if topics[|topics| - 1].completed then 1 else 0)
  }

  /** The sum of the months' topic counts. */
  function TotalTopics(months: seq<Month>): nat {
    if months == [] then 0
    else TotalTopics(months[..|months| - 1]) + |months[|months| - 1].topics|
  }

  /** The sum of the months' completed-topic counts. */
  function CompletedTopics(months: seq<Month>): (n: nat)
    ensures n <= TotalTopics(months)
  {
    if months == [] then 0
    else CompletedTopics(months[..|months| - 1]) + CompletedIn(months[|months| - 1].topics)
  }

  /** Every topic is completed exactly when the two counts agree. */
  lemma {:induction false} AllCompletedIffCountsAgree(months: seq<Month>)
    ensures CompletedTopics(months) == TotalTopics(months)
        <==> forall i, j :: 0 <= i < |months| && 0 <= j < |months[i].topics| ==> months[i].topics[j].completed
  {
    if months != [] {
      var init := months[..|months| - 1];
      var last := months[|months| - 1];
      AllCompletedIffCountsAgree(init);
      assert forall i :: 0 <= i < |init| ==> init[i] == months[i];
      if CompletedTopics(months) == TotalTopics(months) {
        assert CompletedTopics(init) == TotalTopics(init) && CompletedIn(last.topics) == |last.topics|;
      }
    }
  }

  /** `Math.round(completed / total * 100)`, or 0 with no topics: rounding
      half up of the exact ratio. */
  function Percent(completed: nat, total: nat): (p: nat)
    requires completed <= total
    ensures p <= 100
    ensures total == 0 ==> p == 0
    ensures total > 0 ==> 2 * total * p <= 200 * completed + total < 2 * total * (p + 1)
  {
    if total > 0 then
      var n, d := 200 * completed + total, 2 * total;
      var q := n / d;
      assert d * q <= n < d * q + d;
      assert q <= 100 by {
        if q > 100 {
          MulMono(101, q, d);
        }
      }
      q
    else 0
  }

  /** All done shows 100%; short of that, fewer than 200 topics show less. */
  lemma PercentFull(completed: nat, total: nat)
    requires completed <= total
    ensures total > 0 && completed == total ==> Percent(completed, total) == 100
    ensures completed < total < 200 ==> Percent(completed, total) < 100
  {
    var p := Percent(completed, total);
    if total > 0 && completed == total {
      if p <= 99 {
        MulMono(p + 1, 100, 2 * total);
      }
    }
    if completed < total < 200 && p >= 100 {
      MulMono(100, p, 2 * total);
    }
  }

  lemma MulMono(a: nat, b: nat, c: nat)
    requires a <= b
    ensures c * a <= c * b
  {
  }

  /** With 200 topics or more, rounding can show 100% before the last topic
      is done: 199 of 200 rounds up from 99.5. */
  lemma PercentRoundsUpToFull()
    ensures Percent(199, 200) == 100
  {
  }

  /** The progress loop: one pass over the months accumulating both counts,
      then the percentage. */
  method Progress(months: seq<Month>) returns (total: nat, completed: nat, percent: nat)
    ensures total == TotalTopics(months) && completed == CompletedTopics(months)
    ensures completed <= total
    ensures percent == Percent(completed, total)
  {
    total := 0;
    completed := 0;
    var i := 0;
    while i < |months|
      invariant 0 <= i <= |months|
      invariant total == TotalTopics(months[..i]) && completed == CompletedTopics(months[..i])
    {
      assert months[..i + 1][..i] == months[..i];
      total := total + |months[i].topics|;
      completed := completed + CompletedIn(months[i].topics);
      i := i + 1;
    }
    assert months[..i] == months;
    percent := Percent(completed, total);
  }
}
