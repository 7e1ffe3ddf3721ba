/** The two batch endpoints: every request of a batch gets one answer, under a common item budget. */
module Batch {
  import opened Wrappers
  import opened Sequences

  // ------------------------------------------------------------------ the items of one answer

  type Fields = map<string, string>

  datatype Scored = Scored(id: string, score: int)

  datatype Item = Item(id: string, score: int, meta: Fields)

  /** Does the response schema accept the item? */
  type Validator = Item -> bool

  function FullItem(raw: Scored, index: Option<map<string, Fields>>): Item {
    Item(raw.id, raw.score, if index.Some? && raw.id in index.value then index.value[raw.id] else map[])
  }

  function BareItem(raw: Scored): Item {
    Item(raw.id, raw.score, map[])
  }

  predicate Servable(raw: Scored, exclude: set<string>, index: Option<map<string, Fields>>, valid: Validator) {
    raw.id !in exclude && (valid(FullItem(raw, index)) || valid(BareItem(raw)))
  }

  function Served(raw: Scored, index: Option<map<string, Fields>>, valid: Validator): Item {
    if valid(FullItem(raw, index)) then FullItem(raw, index) else BareItem(raw)
  }

  predicate Increasing(s: seq<nat>) {
    forall i, j :: 0 <= i < j < |s| ==> s[i] < s[j]
  }

  /** `items` are the servable ones of `raw`, in order, at the positions `from`. */
  ghost predicate Selects(items: seq<Item>, from: seq<nat>, raw: seq<Scored>, n: nat, exclude: set<string>,
                          index: Option<map<string, Fields>>, valid: Validator)
    requires n <= |raw|
  {
    && |items| == |from| && Increasing(from)
    && (forall k :: k in from <==> 0 <= k < n && Servable(raw[k], exclude, index, valid))
    && (forall i :: 0 <= i < |items| ==> from[i] < n && items[i] == Served(raw[from[i]], index, valid))
  }

  function Excluded(raw: seq<Scored>, exclude: set<string>): nat {
    CountIf(raw, (r: Scored) => r.id in exclude)
  }

  /** How many of the selected candidates are served bare because their metadata do not validate. */
  function Bared(from: seq<nat>, raw: seq<Scored>, index: Option<map<string, Fields>>, valid: Validator): nat {
    if from == [] then 0 else
    var k := from[|from| - 1];
    Bared(from[..|from| - 1], raw, index, valid) + if k < |raw| && !valid(FullItem(raw[k], index)) then 1 else 0
  }

  lemma SelectsNothing(raw: seq<Scored>, exclude: set<string>, index: Option<map<string, Fields>>, valid: Validator)
    ensures Selects([], [], raw, 0, exclude, index, valid)
  {
  }

  /** One more candidate: taken if it is servable, passed over otherwise. */
  lemma SelectsNext(items: seq<Item>, from: seq<nat>, raw: seq<Scored>, n: nat, exclude: set<string>,
                    index: Option<map<string, Fields>>, valid: Validator)
    requires n < |raw| && Selects(items, from, raw, n, exclude, index, valid)
    ensures
      if Servable(raw[n], exclude, index, valid)
      then Selects(items + [Served(raw[n], index, valid)], from + [n], raw, n + 1, exclude, index, valid)
      else Selects(items, from, raw, n + 1, exclude, index, valid)
  {
    hide Served, Servable;
    forall i | 0 <= i < |from|
      ensures from[i] < n
    {
      assert from[i] in from;
    }
  }

  lemma BaredSnoc(from: seq<nat>, n: nat, raw: seq<Scored>, index: Option<map<string, Fields>>, valid: Validator)
    requires n < |raw|
    ensures Bared(from + [n], raw, index, valid)
      == Bared(from, raw, index, valid) + if valid(FullItem(raw[n], index)) then 0 else 1
  {
    assert (from + [n])[..|from|] == from;
  }

  /** The servable candidates in ranking order, with metadata where it validates and bare where only
      that does; every candidate is returned, excluded or counted as dropped. */
  method BuildItems(raw: seq<Scored>, exclude: set<string>, index: Option<map<string, Fields>>, valid: Validator)
    returns (items: seq<Item>, fallback: nat, dropped: nat, ghost from: seq<nat>)
    ensures Selects(items, from, raw, |raw|, exclude, index, valid)
    ensures |items| + dropped + Excluded(raw, exclude) == |raw|
    ensures fallback == Bared(from, raw, index, valid)
  {
    hide Selects, Bared;
    items, from, fallback, dropped := [], [], 0, 0;
    SelectsNothing(raw, exclude, index, valid);
    assert Bared([], raw, index, valid) == 0 by {
      NoneBared(raw, index, valid);
    }
    for n := 0 to |raw|
      invariant Selects(items, from, raw, n, exclude, index, valid)
      invariant |items| + dropped + Excluded(raw[..n], exclude) == n
      invariant fallback == Bared(from, raw, index, valid)
    {
      assert raw[..n + 1][..n] == raw[..n];
      SelectsNext(items, from, raw, n, exclude, index, valid);
      BaredSnoc(from, n, raw, index, valid);
      if raw[n].id in exclude {
        continue;
      }
      var full := FullItem(raw[n], index);
      if valid(full) {
        items, from := items + [full], from + [n];
      } else {
        var bare := BareItem(raw[n]);
        if valid(bare) {
          items, from := items + [bare], from + [n];
          fallback := fallback + 1;
        } else {
          dropped := dropped + 1;
        }
      }
    }
    assert raw[..|raw|] == raw;
  }

  lemma NoneBared(raw: seq<Scored>, index: Option<map<string, Fields>>, valid: Validator)
    ensures Bared([], raw, index, valid) == 0
  {
  }

  // ------------------------------------------------------------------ the elements of a batch

  const AGGREGATE_LIMIT := 5000

  /** What the recommender does with one element. `Exhausted` raises out of the whole request. */
  datatype Ranking = Ranked(raw: seq<Scored>) | KeyMissing | Fails | Exhausted

  /** `known` is whether the user, or some seed item, is in the model; `None` if that cannot be told. */
  datatype Element =
    | NotAnObject
    | BadSchema
    | Valid(limit: nat, exclude: set<string>, known: Option<bool>, ranking: Ranking)

  datatype Why = WrongType | SchemaViolated | CapExceeded

  datatype ErrorCode = ValidationError(why: Why) | UnknownUser | UnknownSeedItems | NoCandidates | InternalError

  datatype Answer = Ok(index: nat, items: seq<Item>) | Err(index: nat, code: ErrorCode)

  /** The limits admitted among the first `n` elements. */
  function Admitted(elements: seq<Element>, n: nat): nat
    requires n <= |elements|
  {
    if n == 0 then 0 else
    var before, e := Admitted(elements, n - 1), elements[n - 1];
    if e.Valid? && before + e.limit <= AGGREGATE_LIMIT then before + e.limit else before
  }

  predicate Capped(elements: seq<Element>, i: nat)
    requires i < |elements|
  {
    elements[i].Valid? && Admitted(elements, i) + elements[i].limit > AGGREGATE_LIMIT
  }

  predicate Exhausts(related: bool, elements: seq<Element>, i: nat)
    requires i < |elements|
  {
    && elements[i].Valid? && !Capped(elements, i) && elements[i].ranking.Exhausted?
    && (related ==> elements[i].known == Some(true))
  }

  /** The error an element must get, if any, once it is past validation and cap. */
  function RankingError(related: bool, known: Option<bool>, ranking: Ranking): Option<ErrorCode> {
    if related then
      if known.None? then Some(InternalError)
      else if !known.value then Some(UnknownSeedItems)
      else match ranking
        case Ranked(raw) => if raw == [] then Some(NoCandidates) else None
        case _ => Some(InternalError)
    else match ranking
      case Ranked(_) => None
      case KeyMissing => Some(if known == Some(false) then UnknownUser else InternalError)
      case _ => Some(InternalError)
  }

  function ErrorOf(related: bool, elements: seq<Element>, i: nat): Option<ErrorCode>
    requires i < |elements|
  {
    match elements[i]
    case NotAnObject => Some(ValidationError(WrongType))
    case BadSchema => Some(ValidationError(SchemaViolated))
    case Valid(limit, exclude, known, ranking) =>
      if Capped(elements, i) then Some(ValidationError(CapExceeded)) else RankingError(related, known, ranking)
  }

  /** The `i`th answer is the `i`th element's: its error if there is one, else its items. */
  ghost predicate Answers(a: Answer, related: bool, elements: seq<Element>, i: nat,
                          index: Option<map<string, Fields>>, valid: Validator)
    requires i < |elements|
  {
    a.index == i &&
    match ErrorOf(related, elements, i)
    case Some(code) => a == Err(i, code)
    case None =>
      && a.Ok? && elements[i].Valid? && elements[i].ranking.Ranked?
      && exists from :: Selects(a.items, from, elements[i].ranking.raw, |elements[i].ranking.raw|,
                                elements[i].exclude, index, valid)
  }

  function ErrorEntries(answers: seq<Answer>): nat {
    CountIf(answers, (a: Answer) => a.Err?)
  }

  function TotalItems(answers: seq<Answer>): nat {
    if answers == [] then 0 else
    TotalItems(answers[..|answers| - 1]) + if answers[|answers| - 1].Ok? then |answers[|answers| - 1].items| else 0
  }

  // ------------------------------------------------------------------ the two loops

  /** Items for known users. `None` if memory or stack ran out in some element. */
  method BatchRecommend(elements: seq<Element>, index: Option<map<string, Fields>>, valid: Validator)
    returns (r: Option<seq<Answer>>, errorMetric: nat)
    ensures r.None? <==> exists i :: 0 <= i < |elements| && Exhausts(false, elements, i)
    ensures r.Some? ==>
      && |r.value| == |elements| && errorMetric == ErrorEntries(r.value)
      && forall i :: 0 <= i < |elements| ==> Answers(r.value[i], false, elements, i, index, valid)
  {
    hide Selects, Answers;
    var results: seq<Answer> := [];
    var aggregate := 0;
    errorMetric := 0;
    for i := 0 to |elements|
      invariant |results| == i && aggregate == Admitted(elements, i) && errorMetric == ErrorEntries(results)
      invariant forall k :: 0 <= k < i ==> !Exhausts(false, elements, k)
      invariant forall k :: 0 <= k < i ==> Answers(results[k], false, elements, k, index, valid)
    {
      var answer: Answer;
      match elements[i] {
        case NotAnObject =>
          answer := Err(i, ValidationError(WrongType));
        case BadSchema =>
          answer := Err(i, ValidationError(SchemaViolated));
        case Valid(limit, exclude, known, ranking) =>
          if aggregate + limit > AGGREGATE_LIMIT {
            answer := Err(i, ValidationError(CapExceeded));
          } else {
            aggregate := aggregate + limit;
            match ranking {
              case Ranked(raw) =>
                var items, _, _, from := BuildItems(raw, exclude, index, valid);
                answer := Ok(i, items);
                GivesItems(answer, false, elements, i, index, valid, from);
              case KeyMissing =>
                answer := Err(i, if known == Some(false) then UnknownUser else InternalError);
              case Fails =>
                answer := Err(i, InternalError);
              case Exhausted =>
                assert Exhausts(false, elements, i);
                return None, errorMetric;
            }
          }
      }
      if answer.Err? {
        GivesError(answer, false, elements, i, index, valid);
        errorMetric := errorMetric + 1;
      }
      ghost var before := results;
      results := results + [answer];
      assert results[..i] == before;
    }
    return Some(results), errorMetric;
  }

  /** Items related to seed items. */
  method BatchRecommendRelated(elements: seq<Element>, index: Option<map<string, Fields>>, valid: Validator)
    returns (r: Option<seq<Answer>>, errorMetric: nat)
    ensures r.None? <==> exists i :: 0 <= i < |elements| && Exhausts(true, elements, i)
    ensures r.Some? ==>
      && |r.value| == |elements| && errorMetric == ErrorEntries(r.value)
      && forall i :: 0 <= i < |elements| ==> Answers(r.value[i], true, elements, i, index, valid)
  {
    hide Selects, Answers;
    var results: seq<Answer> := [];
    var aggregate := 0;
    errorMetric := 0;
    for i := 0 to |elements|
      invariant |results| == i && aggregate == Admitted(elements, i) && errorMetric == ErrorEntries(results)
      invariant forall k :: 0 <= k < i ==> !Exhausts(true, elements, k)
      invariant forall k :: 0 <= k < i ==> Answers(results[k], true, elements, k, index, valid)
    {
      var answer: Answer;
      match elements[i] {
        case NotAnObject =>
          answer := Err(i, ValidationError(WrongType));
        case BadSchema =>
          answer := Err(i, ValidationError(SchemaViolated));
        case Valid(limit, exclude, known, ranking) =>
          if aggregate + limit > AGGREGATE_LIMIT {
            answer := Err(i, ValidationError(CapExceeded));
          } else {
            aggregate := aggregate + limit;
            if known.None? {
              answer := Err(i, InternalError);
            } else if !known.value {
              answer := Err(i, UnknownSeedItems);
            } else {
              match ranking {
                case Ranked(raw) =>
                  if raw == [] {
                    answer := Err(i, NoCandidates);
                  } else {
                    var items, _, _, from := BuildItems(raw, exclude, index, valid);
                    answer := Ok(i, items);
                    GivesItems(answer, true, elements, i, index, valid, from);
                  }
                case KeyMissing =>
                  answer := Err(i, InternalError);
                case Fails =>
                  answer := Err(i, InternalError);
                case Exhausted =>
                  assert Exhausts(true, elements, i);
                  return None, errorMetric;
              }
            }
          }
      }
      if answer.Err? {
        GivesError(answer, true, elements, i, index, valid);
        errorMetric := errorMetric + 1;
      }
      ghost var before := results;
      results := results + [answer];
      assert results[..i] == before;
    }
    return Some(results), errorMetric;
  }

  lemma GivesItems(a: Answer, related: bool, elements: seq<Element>, i: nat,
                   index: Option<map<string, Fields>>, valid: Validator, from: seq<nat>)
    requires i < |elements| && a.Ok? && a.index == i && ErrorOf(related, elements, i).None?
    requires elements[i].Valid? && elements[i].ranking.Ranked?
    requires Selects(a.items, from, elements[i].ranking.raw, |elements[i].ranking.raw|, elements[i].exclude, index, valid)
    ensures Answers(a, related, elements, i, index, valid)
  {
  }

  lemma GivesError(a: Answer, related: bool, elements: seq<Element>, i: nat,
                   index: Option<map<string, Fields>>, valid: Validator)
    requires i < |elements| && a.Err? && a.index == i && ErrorOf(related, elements, i) == Some(a.code)
    ensures Answers(a, related, elements, i, index, valid)
  {
  }

  // ------------------------------------------------------------------ what a response adds up to

  lemma {:induction false} AdmittedWithinCap(elements: seq<Element>, n: nat)
    requires n <= |elements|
    ensures Admitted(elements, n) <= AGGREGATE_LIMIT
  {
    if n > 0 {
      AdmittedWithinCap(elements, n - 1);
    }
  }

  /** What a client can see: the limits of the well-formed elements that were not answered with the
      cap error, among the first `n`. */
  function VisiblyAdmitted(answers: seq<Answer>, elements: seq<Element>, n: nat): nat
    requires n <= |elements| == |answers|
  {
    if n == 0 then 0 else
    VisiblyAdmitted(answers, elements, n - 1)
    + if elements[n - 1].Valid? && answers[n - 1] != Err(n - 1, ValidationError(CapExceeded)) then elements[n - 1].limit else 0
  }

  lemma {:induction false} AdmittedIsVisible(answers: seq<Answer>, related: bool, elements: seq<Element>, n: nat,
                                             index: Option<map<string, Fields>>, valid: Validator)
    requires n <= |elements| == |answers|
    requires forall i :: 0 <= i < |elements| ==> Answers(answers[i], related, elements, i, index, valid)
    ensures VisiblyAdmitted(answers, elements, n) == Admitted(elements, n)
  {
    hide Selects;
    if n > 0 {
      AdmittedIsVisible(answers, related, elements, n - 1, index, valid);
      assert Answers(answers[n - 1], related, elements, n - 1, index, valid);
    }
  }

  /** The cap, read off a response alone: an element gets the cap error exactly if its limit no
      longer fits beside the limits of the elements before it that did not get it. */
  lemma CapRejectedIff(answers: seq<Answer>, related: bool, elements: seq<Element>, i: nat,
                       index: Option<map<string, Fields>>, valid: Validator)
    requires i < |elements| == |answers|
    requires forall k :: 0 <= k < |elements| ==> Answers(answers[k], related, elements, k, index, valid)
    ensures answers[i] == Err(i, ValidationError(CapExceeded))
       <==> elements[i].Valid? && VisiblyAdmitted(answers, elements, i) + elements[i].limit > 5000
    ensures VisiblyAdmitted(answers, elements, |elements|) <= 5000
  {
    hide Selects;
    AdmittedIsVisible(answers, related, elements, i, index, valid);
    AdmittedIsVisible(answers, related, elements, |elements|, index, valid);
    AdmittedWithinCap(elements, |elements|);
    assert Answers(answers[i], related, elements, i, index, valid);
  }

  /** Past validation and under the cap, as a client can see it. */
  predicate Admissible(answers: seq<Answer>, elements: seq<Element>, i: nat)
    requires i < |elements| == |answers|
  {
    elements[i].Valid? && VisiblyAdmitted(answers, elements, i) + elements[i].limit <= 5000
  }

  /** Which element of a batch of known users gets which answer: read off elements and answers. */
  lemma RecommendAnswers(answers: seq<Answer>, elements: seq<Element>, i: nat,
                         index: Option<map<string, Fields>>, valid: Validator)
    requires i < |elements| == |answers|
    requires forall k :: 0 <= k < |elements| ==> Answers(answers[k], false, elements, k, index, valid)
    ensures
      var a, e, admissible := answers[i], elements[i], Admissible(answers, elements, i);
      && a.index == i
      && (a.Ok? <==> admissible && e.ranking.Ranked?)
      && (a == Err(i, ValidationError(WrongType)) <==> e.NotAnObject?)
      && (a == Err(i, ValidationError(SchemaViolated)) <==> e.BadSchema?)
      && (a == Err(i, UnknownUser) <==> admissible && e.ranking.KeyMissing? && e.known == Some(false))
      && (a == Err(i, InternalError) <==>
            admissible && !e.ranking.Ranked? && !(e.ranking.KeyMissing? && e.known == Some(false)))
      && a != Err(i, UnknownSeedItems) && a != Err(i, NoCandidates)
  {
    hide Selects;
    CapRejectedIff(answers, false, elements, i, index, valid);
    assert Answers(answers[i], false, elements, i, index, valid);
  }

  /** The same for a batch of seed lists. */
  lemma RelatedAnswers(answers: seq<Answer>, elements: seq<Element>, i: nat,
                       index: Option<map<string, Fields>>, valid: Validator)
    requires i < |elements| == |answers|
    requires forall k :: 0 <= k < |elements| ==> Answers(answers[k], true, elements, k, index, valid)
    ensures
      var a, e, admissible := answers[i], elements[i], Admissible(answers, elements, i);
      && a.index == i
      && (a.Ok? <==> admissible && e.known == Some(true) && e.ranking.Ranked? && e.ranking.raw != [])
      && (a == Err(i, ValidationError(WrongType)) <==> e.NotAnObject?)
      && (a == Err(i, ValidationError(SchemaViolated)) <==> e.BadSchema?)
      && (a == Err(i, UnknownSeedItems) <==> admissible && e.known == Some(false))
      && (a == Err(i, NoCandidates) <==> admissible && e.known == Some(true) && e.ranking == Ranked([]))
      && (a == Err(i, InternalError) <==>
            admissible && (e.known.None? || (e.known == Some(true) && !e.ranking.Ranked?)))
      && a != Err(i, UnknownUser)
  {
    hide Selects;
    CapRejectedIff(answers, true, elements, i, index, valid);
    assert Answers(answers[i], true, elements, i, index, valid);
  }

  /** What is served for one candidate: its own id and score, with the metadata that the index has
      under its id if the schema accepts them, and without any otherwise. */
  lemma MetadataIsJoinedById(items: seq<Item>, from: seq<nat>, raw: seq<Scored>, exclude: set<string>,
                             index: Option<map<string, Fields>>, valid: Validator, i: nat)
    requires Selects(items, from, raw, |raw|, exclude, index, valid) && i < |items|
    ensures
      var r := raw[from[i]];
      && items[i].id == r.id && items[i].score == r.score && r.id !in exclude && valid(items[i])
      && (index.None? || r.id !in index.value ==> items[i].meta == map[])
      && (index.Some? && r.id in index.value ==>
            items[i].meta == if valid(Item(r.id, r.score, index.value[r.id])) then index.value[r.id] else map[])
  {
    assert from[i] in from;
  }

  lemma {:induction false} DistinctPositions(from: seq<nat>, n: nat)
    requires Increasing(from) && forall k :: k in from ==> k < n
    ensures |from| <= n
    decreases n
  {
    if from != [] {
      var last := from[|from| - 1];
      assert last in from;
      var init := from[..|from| - 1];
      forall k | k in init
        ensures k < last
      {
        var i :| 0 <= i < |init| && init[i] == k;
        assert from[i] < from[|from| - 1];
      }
      DistinctPositions(init, last);
    }
  }

  /** The recommender returns no more candidates than it is asked for. */
  predicate RespectsCutoff(elements: seq<Element>) {
    forall i :: 0 <= i < |elements| && elements[i].Valid? && elements[i].ranking.Ranked? ==>
      |elements[i].ranking.raw| <= elements[i].limit
  }

  lemma {:induction false} ItemsWithinAdmitted(answers: seq<Answer>, related: bool, elements: seq<Element>, n: nat,
                                               index: Option<map<string, Fields>>, valid: Validator)
    requires n <= |elements| == |answers| && RespectsCutoff(elements)
    requires forall i :: 0 <= i < |elements| ==> Answers(answers[i], related, elements, i, index, valid)
    ensures TotalItems(answers[..n]) <= Admitted(elements, n)
  {
    hide Selects;
    if n > 0 {
      ItemsWithinAdmitted(answers, related, elements, n - 1, index, valid);
      assert answers[..n][..n - 1] == answers[..n - 1];
      var i := n - 1;
      assert Answers(answers[i], related, elements, i, index, valid);
      if answers[i].Ok? {
        var raw := elements[i].ranking.raw;
        var from :| Selects(answers[i].items, from, raw, |raw|, elements[i].exclude, index, valid);
        ItemsFit(answers[i].items, from, raw, elements[i].exclude, index, valid);
      }
    }
  }

  lemma ItemsFit(items: seq<Item>, from: seq<nat>, raw: seq<Scored>, exclude: set<string>,
                 index: Option<map<string, Fields>>, valid: Validator)
    requires Selects(items, from, raw, |raw|, exclude, index, valid)
    ensures |items| <= |raw|
    ensures forall i :: 0 <= i < |items| ==> items[i].id !in exclude
  {
    DistinctPositions(from, |raw|);
    forall i | 0 <= i < |items|
      ensures items[i].id !in exclude
    {
      assert from[i] in from;
    }
  }

  /** The items of a whole response stay within the cap. */
  lemma ResponseWithinCap(answers: seq<Answer>, related: bool, elements: seq<Element>,
                          index: Option<map<string, Fields>>, valid: Validator)
    requires |elements| == |answers| && RespectsCutoff(elements)
    requires forall i :: 0 <= i < |elements| ==> Answers(answers[i], related, elements, i, index, valid)
    ensures TotalItems(answers) <= 5000
  {
    ItemsWithinAdmitted(answers, related, elements, |elements|, index, valid);
    AdmittedWithinCap(elements, |elements|);
    assert answers[..|elements|] == answers;
  }
}
