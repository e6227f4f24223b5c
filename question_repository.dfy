/**
 * The fixed question store (QuestionRepositoryImpl.kt): a catalog of six categories and thirty
 * questions, and retrieval by category as filter, shuffle, then take at most `limit`.
 */
module QuestionRepository {
  import opened Wrappers
  import opened Domain
  import opened Shuffling

  /** The six categories, in declaration order (QuestionRepositoryImpl.kt, `categories`). */
  const Categories: seq<Category> := [
    Category(1, "Traffic Signs", "Learn about road signs and their meanings", "traffic_light", 50),
    Category(2, "Road Rules", "Basic traffic rules and regulations", "rule", 45),
    Category(3, "Safety", "Vehicle safety and emergency procedures", "security", 40),
    Category(4, "Parking", "Parking rules and regulations", "local_parking", 35),
    Category(5, "Intersections", "Navigation through intersections", "intersection", 30),
    Category(6, "Highway Driving", "Highway rules and safe driving", "highway", 25)
  ]

  /** The thirty questions, five per category, in declaration order (`questions`). */
  const Questions: seq<Question> := [
    Question(1, "What does a red octagonal sign mean?",
      ["Yield", "Stop", "Caution", "No Entry"], 1, Categories[0], ""),
    Question(2, "What does a yellow diamond sign typically indicate?",
      ["Warning", "Information", "Prohibition", "Direction"], 0, Categories[0], ""),
    Question(3, "What does a circular sign with a red border mean?",
      ["Warning", "Information", "Prohibition", "Mandatory"], 2, Categories[0], ""),
    Question(4, "What does a blue rectangular sign indicate?",
      ["Warning", "Information", "Prohibition", "Mandatory"], 1, Categories[0], ""),
    Question(5, "What does a triangular sign with red border mean?",
      ["Stop", "Yield", "Warning", "No Entry"], 1, Categories[0], ""),
    Question(6, "What is the maximum speed limit in residential areas?",
      ["30 km/h", "40 km/h", "50 km/h", "60 km/h"], 2, Categories[1], ""),
    Question(7, "When should you use your turn signal?",
      ["Only when turning left", "Only when turning right", "Before any turn or lane change", "Only on highways"], 2, Categories[1], ""),
    Question(8, "What should you do at a yellow traffic light?",
      ["Speed up", "Stop if safe to do so", "Continue normally", "Honk your horn"], 1, Categories[1], ""),
    Question(9, "How far should you follow behind another vehicle?",
      ["1 second", "2 seconds", "3 seconds", "5 seconds"], 2, Categories[1], ""),
    Question(10, "When is it legal to pass another vehicle?",
      ["Anytime", "Only on highways", "When safe and legal", "Never"], 2, Categories[1], ""),
    Question(11, "What should you do if your brakes fail?",
      ["Pump the brakes", "Use parking brake gradually", "Turn off engine", "All of the above"], 3, Categories[2], ""),
    Question(12, "When should you check your mirrors?",
      ["Only when changing lanes", "Every 5-8 seconds", "Only when parking", "Once per trip"], 1, Categories[2], ""),
    Question(13, "What is the safest way to handle a tire blowout?",
      ["Brake hard immediately", "Grip wheel firmly and slow down gradually", "Turn sharply", "Accelerate"], 1, Categories[2], ""),
    Question(14, "What should you do in heavy rain?",
      ["Drive faster", "Use hazard lights", "Reduce speed and increase following distance", "Drive normally"], 2, Categories[2], ""),
    Question(15, "When should you use headlights?",
      ["Only at night", "30 minutes before sunset to 30 minutes after sunrise", "Only in bad weather", "Never during day"], 1, Categories[2], ""),
    Question(16, "How far from a fire hydrant should you park?",
      ["3 meters", "5 meters", "10 meters", "15 meters"], 1, Categories[3], ""),
    Question(17, "When parking uphill with a curb, which way should you turn your wheels?",
      ["Away from curb", "Toward curb", "Straight", "Either way"], 0, Categories[3], ""),
    Question(18, "How close to a crosswalk can you park?",
      ["Right up to it", "3 meters", "5 meters", "10 meters"], 2, Categories[3], ""),
    Question(19, "What is parallel parking?",
      ["Parking perpendicular to curb", "Parking parallel to curb", "Parking at an angle", "Parking in a garage"], 1, Categories[3], ""),
    Question(20, "When parking downhill, which way should you turn your wheels?",
      ["Away from curb", "Toward curb", "Straight", "Either way"], 1, Categories[3], ""),
    Question(21, "Who has the right of way at a four-way stop?",
      ["Largest vehicle", "First to arrive", "Vehicle on the right", "Vehicle going straight"], 1, Categories[4], ""),
    Question(22, "What should you do when approaching a flashing red light?",
      ["Slow down", "Stop completely", "Proceed with caution", "Speed up"], 1, Categories[4], ""),
    Question(23, "When turning left at an intersection, you should yield to:",
      ["No one", "Oncoming traffic", "Pedestrians only", "Vehicles behind you"], 1, Categories[4], ""),
    Question(24, "What does a flashing yellow light mean?",
      ["Stop", "Yield", "Proceed with caution", "Speed up"], 2, Categories[4], ""),
    Question(25, "At a roundabout, who has the right of way?",
      ["Entering traffic", "Traffic in the roundabout", "Largest vehicle", "Emergency vehicles only"], 1, Categories[4], ""),
    Question(26, "What is the minimum speed on most highways?",
      ["40 km/h", "60 km/h", "80 km/h", "100 km/h"], 1, Categories[5], ""),
    Question(27, "When merging onto a highway, you should:",
      ["Stop and wait", "Match the speed of traffic", "Go as fast as possible", "Use hazard lights"], 1, Categories[5], ""),
    Question(28, "What lane should you use for normal highway driving?",
      ["Left lane", "Right lane", "Middle lane", "Any lane"], 1, Categories[5], ""),
    Question(29, "When should you use the left lane on a highway?",
      ["Normal driving", "Passing only", "Slow driving", "Emergency only"], 1, Categories[5], ""),
    Question(30, "What should you do if you miss your highway exit?",
      ["Reverse", "Stop and back up", "Continue to next exit", "Make a U-turn"], 2, Categories[5], "")
  ]

  /** Why a retrieval raised instead of returning: Kotlin's `take` refuses a negative count. */
  datatype RepositoryError = NegativeLimit(limit: int)

  /** Every catalog question has four options, and its correct index names one of them. */
  lemma CatalogWellFormed()
    ensures |Questions| == 30
    ensures forall i :: 0 <= i < |Questions| ==> |Questions[i].options| == 4 && WellFormed(Questions[i])
  {
  }

  /** `getCategories`: the six categories unchanged, ids 1 to 6 in declaration order. */
  function GetCategories(): (r: seq<Category>)
    ensures |r| == 6
    ensures forall i :: 0 <= i < |r| ==> r[i].id == i + 1
  {
    CategoriesShape();
    Categories
  }

  /** `getAllQuestions`: the thirty questions unchanged, ids 1 to 30 in declaration order, all well formed. */
  function GetAllQuestions(): (r: seq<Question>)
    ensures |r| == 30
    ensures forall i :: 0 <= i < |r| ==> r[i].id == i + 1 && |r[i].options| == 4 && WellFormed(r[i])
    ensures DistinctIds(r)
  {
    CatalogLayout();
    CatalogWellFormed();
    Questions
  }

  /** Kotlin's `filter { it.category.id == categoryId }`: the questions of one category, order kept. */
  function InCategory(qs: seq<Question>, categoryId: int): (r: seq<Question>)
    ensures |r| <= |qs|
    ensures forall q :: q in r <==> q in qs && q.category.id == categoryId
  {
    if |qs| == 0 then []
    else (if qs[0].category.id == categoryId then [qs[0]] else []) + InCategory(qs[1..], categoryId)
  }

  /** Kotlin's `take(n)` for a non-negative `n`: the first `n` elements, or all when there are fewer. */
  function Take<T>(s: seq<T>, n: nat): (r: seq<T>)
    ensures |r| == if n < |s| then n else |s|
    ensures r == s[..|r|]
  {
    if n < |s| then s[..n] else s
  }

  /**
   * Retrieval over a given catalog: the questions of `categoryId`, shuffled by the draws `picks`,
   * cut to at most `limit`. A negative limit raises, as `take` does; a category with no question
   * yields an empty list, not an error.
   */
  function RetrieveFrom(catalog: seq<Question>, categoryId: int, limit: int, picks: seq<nat>): (r: Result<seq<Question>, RepositoryError>)
    ensures r.Failure? <==> limit < 0
    ensures r.Success? ==>
              && |r.value| == (if limit < |InCategory(catalog, categoryId)| then limit else |InCategory(catalog, categoryId)|)
              && (forall q :: q in r.value ==> q in catalog && q.category.id == categoryId)
              && multiset(r.value) <= multiset(InCategory(catalog, categoryId))
  {
    if limit < 0 then Failure(NegativeLimit(limit))
    else
      var matching := InCategory(catalog, categoryId);
      TakeOfShuffle(matching, picks, limit);
      Success(Take(Shuffle(matching, picks), limit))
  }

  /** A prefix takes its elements, with their multiplicities, from the whole. */
  lemma TakeWithin<T>(u: seq<T>, n: nat)
    ensures multiset(Take(u, n)) <= multiset(u)
    ensures forall x :: x in Take(u, n) ==> x in u
  {
    var t := Take(u, n);
    assert u == t + u[|t|..];
  }

  /** A prefix of a shuffle draws its elements, with their multiplicities, from the shuffled sequence. */
  lemma TakeOfShuffle<T>(s: seq<T>, picks: seq<nat>, n: nat)
    ensures multiset(Take(Shuffle(s, picks), n)) <= multiset(s)
    ensures forall x :: x in Take(Shuffle(s, picks), n) ==> x in s
  {
    var u := Shuffle(s, picks);
    TakeWithin(u, n);
    forall x | x in Take(u, n)
      ensures x in s
    {
      assert x in multiset(u);
    }
  }

  /** A limit that covers every matching question cuts nothing: the result is the whole shuffle. */
  lemma RetrieveWhole(catalog: seq<Question>, categoryId: int, limit: int, picks: seq<nat>)
    requires |InCategory(catalog, categoryId)| <= limit
    ensures RetrieveFrom(catalog, categoryId, limit, picks) == Success(Shuffle(InCategory(catalog, categoryId), picks))
  {
  }

  /** `getQuestionsByCategory` of the repository: retrieval over the fixed catalog. */
  function GetQuestionsByCategory(categoryId: int, limit: int, picks: seq<nat>): (r: Result<seq<Question>, RepositoryError>)
    ensures r.Failure? <==> limit < 0
    ensures r.Success? ==>
              && |r.value| == (if limit < |InCategory(Questions, categoryId)| then limit else |InCategory(Questions, categoryId)|)
              && (forall q :: q in r.value ==> q in Questions && q.category.id == categoryId)
              && multiset(r.value) <= multiset(InCategory(Questions, categoryId))
  {
    RetrieveFrom(Questions, categoryId, limit, picks)
  }

  // ---------------------------------------------------------------------------------------------
  // Facts about filtering

  lemma {:induction false} InCategoryAppend(a: seq<Question>, b: seq<Question>, categoryId: int)
    ensures InCategory(a + b, categoryId) == InCategory(a, categoryId) + InCategory(b, categoryId)
    decreases |a|
  {
    if |a| > 0 {
      assert (a + b)[0] == a[0];
      assert (a + b)[1..] == a[1..] + b;
      InCategoryAppend(a[1..], b, categoryId);
    } else {
      assert a + b == b;
    }
  }

  lemma {:induction false} InCategoryOfUniform(a: seq<Question>, categoryId: int)
    requires forall q :: q in a ==> q.category.id == categoryId
    ensures InCategory(a, categoryId) == a
    decreases |a|
  {
    if |a| > 0 {
      InCategoryOfUniform(a[1..], categoryId);
    }
  }

  lemma InCategoryNone(a: seq<Question>, categoryId: int)
    requires forall q :: q in a ==> q.category.id != categoryId
    ensures InCategory(a, categoryId) == []
  {
    if InCategory(a, categoryId) != [] {
      assert InCategory(a, categoryId)[0] in InCategory(a, categoryId);
    }
  }

  /** Filtering keeps each kept question once, so it cannot create a duplicate. */
  lemma {:induction false} InCategoryKeepsDistinct(a: seq<Question>, categoryId: int)
    requires Distinct(a)
    ensures Distinct(InCategory(a, categoryId))
    decreases |a|
  {
    if |a| > 0 {
      InCategoryKeepsDistinct(a[1..], categoryId);
      assert a[0] !in a[1..];
    }
  }

  // ---------------------------------------------------------------------------------------------
  // The catalog's layout: what the proofs below use of the thirty literal questions

  /** Thirty questions, the one at position `i` having id `i + 1` and category `i / 5 + 1`. */
  ghost predicate Layout(catalog: seq<Question>) {
    && |catalog| == 30
    && forall i :: 0 <= i < |catalog| ==> catalog[i].id == i + 1 && catalog[i].category.id == i / 5 + 1
  }

  /** Category ids run 1 to 6; the advertised totals run 50, 45, ..., 25. */
  lemma CategoriesShape()
    ensures |Categories| == 6
    ensures forall i :: 0 <= i < 6 ==> Categories[i].id == i + 1 && Categories[i].totalQuestions == 50 - 5 * i
  {
  }

  /** Question `i` (from zero) has id `i + 1`. */
  lemma CatalogIds()
    ensures |Questions| == 30
    ensures forall i :: 0 <= i < |Questions| ==> Questions[i].id == i + 1
  {
  }

  /** Question `i` (from zero) belongs to the category with id `i / 5 + 1`: five per category, in category order. */
  lemma CatalogCategoryIds()
    ensures |Questions| == 30
    ensures forall i :: 0 <= i < |Questions| ==> Questions[i].category.id == i / 5 + 1
  {
  }

  /** The catalog follows the layout: question `i` (from zero) has id `i + 1` and category id `i / 5 + 1`. */
  lemma CatalogLayout()
    ensures Layout(Questions)
  {
    CatalogIds();
    CatalogCategoryIds();
  }

  /** A stretch of the layout whose positions all fall in category `categoryId` is kept whole by the filter. */
  lemma LayoutSliceKept(catalog: seq<Question>, categoryId: int, lo: int, hi: int)
    requires Layout(catalog) && 0 <= lo <= hi <= |catalog|
    requires forall k :: lo <= k < hi ==> k / 5 + 1 == categoryId
    ensures InCategory(catalog[lo..hi], categoryId) == catalog[lo..hi]
  {
    forall q | q in catalog[lo..hi]
      ensures q.category.id == categoryId
    {
      var k :| 0 <= k < hi - lo && catalog[lo..hi][k] == q;
      assert catalog[lo + k] == q;
    }
    InCategoryOfUniform(catalog[lo..hi], categoryId);
  }

  /** A stretch of the layout whose positions all fall outside category `categoryId` is dropped by the filter. */
  lemma LayoutSliceDropped(catalog: seq<Question>, categoryId: int, lo: int, hi: int)
    requires Layout(catalog) && 0 <= lo <= hi <= |catalog|
    requires forall k :: lo <= k < hi ==> k / 5 + 1 != categoryId
    ensures InCategory(catalog[lo..hi], categoryId) == []
  {
    forall q | q in catalog[lo..hi]
      ensures q.category.id != categoryId
    {
      var k :| 0 <= k < hi - lo && catalog[lo..hi][k] == q;
      assert catalog[lo + k] == q;
    }
    InCategoryNone(catalog[lo..hi], categoryId);
  }

  /** Position `k` lies in block `c`, counted from one, exactly when `5 * (c - 1) <= k < 5 * c`. */
  lemma BlockOfPosition(k: int, c: int)
    requires 0 <= k
    ensures (k / 5 + 1 == c) == (5 * (c - 1) <= k < 5 * c)
  {
  }

  lemma BlockPositions(c: int)
    ensures forall k :: 0 <= k < 30 ==> ((k / 5 + 1 == c) == (5 * (c - 1) <= k < 5 * c))
  {
    forall k | 0 <= k < 30
      ensures (k / 5 + 1 == c) == (5 * (c - 1) <= k < 5 * c)
    {
      BlockOfPosition(k, c);
    }
  }

  /** Filtering distributes over cutting a list in three. */
  lemma InCategorySplit(catalog: seq<Question>, lo: int, hi: int, categoryId: int)
    requires 0 <= lo <= hi <= |catalog|
    ensures InCategory(catalog, categoryId)
         == InCategory(catalog[0..lo], categoryId) + InCategory(catalog[lo..hi], categoryId) + InCategory(catalog[hi..|catalog|], categoryId)
  {
    var before, block, after := catalog[0..lo], catalog[lo..hi], catalog[hi..|catalog|];
    assert catalog == before + block + after;
    InCategoryAppend(before + block, after, categoryId);
    InCategoryAppend(before, block, categoryId);
  }

  /** In a catalog laid out in blocks of five, category `categoryId` from 1 to 6 selects its own block. */
  lemma LayoutBlockKnown(catalog: seq<Question>, categoryId: int)
    requires Layout(catalog) && 1 <= categoryId <= 6
    ensures InCategory(catalog, categoryId) == catalog[5 * (categoryId - 1)..5 * categoryId]
  {
    var lo, hi := 5 * (categoryId - 1), 5 * categoryId;
    BlockPositions(categoryId);
    InCategorySplit(catalog, lo, hi, categoryId);
    LayoutSliceDropped(catalog, categoryId, 0, lo);
    LayoutSliceKept(catalog, categoryId, lo, hi);
    LayoutSliceDropped(catalog, categoryId, hi, 30);
  }

  /** In a catalog laid out in blocks of five, a category selects its own block and an unknown id nothing. */
  lemma LayoutBlock(catalog: seq<Question>, categoryId: int)
    requires Layout(catalog)
    ensures 1 <= categoryId <= 6 ==> InCategory(catalog, categoryId) == catalog[5 * (categoryId - 1)..5 * categoryId]
    ensures !(1 <= categoryId <= 6) ==> InCategory(catalog, categoryId) == []
  {
    if 1 <= categoryId <= 6 {
      LayoutBlockKnown(catalog, categoryId);
    } else {
      assert catalog == catalog[0..30];
      LayoutSliceDropped(catalog, categoryId, 0, 30);
    }
  }

  /** In such a catalog distinct questions have distinct ids, since the id is the position plus one. */
  lemma LayoutIdsDistinct(catalog: seq<Question>, r: seq<Question>)
    requires Layout(catalog) && Distinct(r) && forall q :: q in r ==> q in catalog
    ensures DistinctIds(r)
  {
    forall i, j | 0 <= i < j < |r|
      ensures r[i].id != r[j].id
    {
      assert r[i] in catalog && r[j] in catalog;
      var a :| 0 <= a < |catalog| && catalog[a] == r[i];
      var b :| 0 <= b < |catalog| && catalog[b] == r[j];
    }
  }

  /** A catalog that follows the layout holds no question twice: the ids already differ. */
  lemma LayoutDistinct(catalog: seq<Question>)
    requires Layout(catalog)
    ensures Distinct(catalog)
  {
    forall i, j | 0 <= i < j < |catalog|
      ensures catalog[i] != catalog[j]
    {
      assert catalog[i].id == i + 1 && catalog[j].id == j + 1;
    }
  }

  /** Retrieval from a catalog that follows the layout never repeats a question nor an id. */
  lemma LayoutRetrievalDistinct(catalog: seq<Question>, categoryId: int, limit: int, picks: seq<nat>)
    requires Layout(catalog) && limit >= 0
    ensures Distinct(RetrieveFrom(catalog, categoryId, limit, picks).value)
    ensures DistinctIds(RetrieveFrom(catalog, categoryId, limit, picks).value)
  {
    var matching := InCategory(catalog, categoryId);
    LayoutDistinct(catalog);
    InCategoryKeepsDistinct(catalog, categoryId);
    var shuffled := Shuffle(matching, picks);
    PermutationKeepsDistinct(matching, shuffled);
    var r := RetrieveFrom(catalog, categoryId, limit, picks).value;
    assert r == shuffled[..|r|];
    LayoutIdsDistinct(catalog, r);
  }

  /** The catalog holds no question twice. */
  lemma CatalogDistinct()
    ensures Distinct(Questions)
  {
    CatalogLayout();
    LayoutDistinct(Questions);
  }

  /** Each catalog category holds exactly the five consecutive questions of its block; any other id selects nothing. */
  lemma CategoryBlock(categoryId: int)
    ensures 1 <= categoryId <= 6 ==> InCategory(Questions, categoryId) == Questions[5 * (categoryId - 1)..5 * categoryId]
    ensures !(1 <= categoryId <= 6) ==> InCategory(Questions, categoryId) == []
  {
    CatalogLayout();
    LayoutBlock(Questions, categoryId);
  }

  // ---------------------------------------------------------------------------------------------
  // Properties of retrieval

  /** Every category of the catalog has exactly five questions. */
  lemma FiveQuestionsPerCategory(categoryId: int)
    requires 1 <= categoryId <= 6
    ensures |InCategory(Questions, categoryId)| == 5
  {
    CategoryBlock(categoryId);
  }

  /** A category id outside the catalog yields an empty list, not an error. */
  lemma UnknownCategoryIsEmpty(categoryId: int, limit: int, picks: seq<nat>)
    requires !(1 <= categoryId <= 6) && limit >= 0
    ensures GetQuestionsByCategory(categoryId, limit, picks) == Success([])
  {
    CategoryBlock(categoryId);
  }

  /** A retrieval never returns the same question twice, so neither two questions with one id. */
  lemma RetrievalHasNoDuplicates(categoryId: int, limit: int, picks: seq<nat>)
    requires limit >= 0
    ensures Distinct(GetQuestionsByCategory(categoryId, limit, picks).value)
    ensures DistinctIds(GetQuestionsByCategory(categoryId, limit, picks).value)
  {
    CatalogLayout();
    LayoutRetrievalDistinct(Questions, categoryId, limit, picks);
  }

  /**
   * The shuffle can produce any order: for every ordering `p` of the category's
   * questions there are draws that make the retrieval return the first `limit` of `p`.
   */
  lemma EveryOrderingRetrievable(categoryId: int, limit: int, p: seq<Question>) returns (picks: seq<nat>)
    requires limit >= 0 && multiset(p) == multiset(InCategory(Questions, categoryId))
    ensures GetQuestionsByCategory(categoryId, limit, picks) == Success(Take(p, limit))
  {
    picks := ShuffleReaches(InCategory(Questions, categoryId), p);
  }

  /** The category metadata `totalQuestions` (50, 45, ..., 25) never matches the five questions actually held. */
  lemma CategoryTotalsAreDisplayOnly(i: int)
    requires 0 <= i < |Categories|
    ensures Categories[i].totalQuestions != |InCategory(Questions, Categories[i].id)|
  {
    CategoriesShape();
    FiveQuestionsPerCategory(i + 1);
  }
}
