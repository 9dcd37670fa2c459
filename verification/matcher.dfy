/** The fuzzy course matcher, `find_relevant_courses`, which both front-ends
    share: a course is recommended when one of its tags scores strictly
    above the threshold against the lower-cased interest or goal. */
module CourseMatcher {

  /** A catalog entry: name, description and tag list. */
  datatype Course = Course(name: string, description: string, tags: seq<string>)

  /** The two foreign string functions the matcher relies on, left
      uninterpreted: `score` stands for `fuzz.partial_ratio` and `lower`
      for `str.lower`. */
  datatype Comparer = Comparer(score: (string, string) -> int, lower: string -> string)

  /** A tag must score strictly more than this to count as a match. */
  const Threshold: int := 85

  /** What both front-ends show in place of an empty recommendation list. */
  const NoCoursesMessage: string := "No relevant courses found."

  /** One tag matches when it scores above the threshold against the
      lower-cased interest, or failing that against the lower-cased goal. */
  predicate TagMatches(cmp: Comparer, interest: string, goal: string, tag: string)
  {
    cmp.score(cmp.lower(interest), cmp.lower(tag)) > Threshold
    || cmp.score(cmp.lower(goal), cmp.lower(tag)) > Threshold
  }

  /** A course qualifies when at least one of its tags matches. */
  predicate CourseMatches(cmp: Comparer, interest: string, goal: string, c: Course)
  {
    exists k :: 0 <= k < |c.tags| && TagMatches(cmp, interest, goal, c.tags[k])
  }

  /** `a` is obtained from `b` by deleting elements, keeping the order. */
  predicate IsSubsequence<T(==)>(a: seq<T>, b: seq<T>)
    decreases |b|
  {
    a == []
    || (b != [] && ((a[0] == b[0] && IsSubsequence(a[1..], b[1..])) || IsSubsequence(a, b[1..])))
  }

  /** The recommendations for a catalog: the qualifying courses, in
      catalog order, one per qualifying entry. */
  function Recommend(catalog: seq<Course>, cmp: Comparer, interest: string, goal: string): (r: seq<Course>)
    ensures |r| <= |catalog|
    ensures forall c :: c in r ==> c in catalog && CourseMatches(cmp, interest, goal, c)
  {
    if catalog == [] then []
    else if CourseMatches(cmp, interest, goal, catalog[0]) then
      [catalog[0]] + Recommend(catalog[1..], cmp, interest, goal)
    else
      Recommend(catalog[1..], cmp, interest, goal)
  }

  /** Adding one course at the end of the catalog adds it at the end of the
      recommendations exactly when it qualifies. */
  lemma {:induction false} RecommendSnoc(catalog: seq<Course>, c: Course, cmp: Comparer, interest: string, goal: string)
    ensures Recommend(catalog + [c], cmp, interest, goal)
         == Recommend(catalog, cmp, interest, goal)
            + (if CourseMatches(cmp, interest, goal, c) then [c] else [])
    decreases |catalog|
  {
    if catalog == [] {
      assert catalog + [c] == [c];
    } else {
      assert (catalog + [c])[1..] == catalog[1..] + [c];
      RecommendSnoc(catalog[1..], c, cmp, interest, goal);
    }
  }

  /** The loop of `find_relevant_courses`: for each course, scan its tags
      and append the course at the first matching tag, then stop scanning. */
  method FindRelevantCourses(catalog: seq<Course>, cmp: Comparer, interest: string, goal: string)
    returns (recommendations: seq<Course>)
    ensures recommendations == Recommend(catalog, cmp, interest, goal)
  {
    recommendations := [];
    var i := 0;
    while i < |catalog|
      invariant 0 <= i <= |catalog|
      invariant recommendations == Recommend(catalog[..i], cmp, interest, goal)
    {
      var course := catalog[i];
      var matched := false;
      var j := 0;
      while j < |course.tags|
        invariant 0 <= j <= |course.tags|
        invariant forall k :: 0 <= k < j ==> !TagMatches(cmp, interest, goal, course.tags[k])
        invariant !matched
        invariant recommendations == Recommend(catalog[..i], cmp, interest, goal)
      {
        var tag := course.tags[j];
        if cmp.score(cmp.lower(interest), cmp.lower(tag)) > Threshold
           || cmp.score(cmp.lower(goal), cmp.lower(tag)) > Threshold
        {
          recommendations := recommendations + [course];
          matched := true;
          break;
        }
        j := j + 1;
      }
      assert matched <==> CourseMatches(cmp, interest, goal, course);
      assert catalog[..i + 1] == catalog[..i] + [course];
      RecommendSnoc(catalog[..i], course, cmp, interest, goal);
      i := i + 1;
    }
    assert catalog[..i] == catalog;
  }

  /** The recommendations keep catalog order: they are a subsequence of it. */
  lemma {:induction false} RecommendIsSubsequence(catalog: seq<Course>, cmp: Comparer, interest: string, goal: string)
    ensures IsSubsequence(Recommend(catalog, cmp, interest, goal), catalog)
    decreases |catalog|
  {
    if catalog != [] {
      RecommendIsSubsequence(catalog[1..], cmp, interest, goal);
      var rest := Recommend(catalog[1..], cmp, interest, goal);
      if CourseMatches(cmp, interest, goal, catalog[0]) {
        assert ([catalog[0]] + rest)[1..] == rest;
      }
    }
  }

  /** Each catalog entry contributes at most one copy: a course value occurs
      in the recommendations exactly as often as in the catalog when it
      qualifies, and not at all otherwise. */
  lemma {:induction false} RecommendCount(catalog: seq<Course>, cmp: Comparer, interest: string, goal: string, c: Course)
    ensures multiset(Recommend(catalog, cmp, interest, goal))[c]
         == if CourseMatches(cmp, interest, goal, c) then multiset(catalog)[c] else 0
    decreases |catalog|
  {
    if catalog != [] {
      RecommendCount(catalog[1..], cmp, interest, goal, c);
      assert catalog == [catalog[0]] + catalog[1..];
    }
  }

  /** A course is recommended iff it is in the catalog and one of its tags
      scores strictly above the threshold against the lower-cased interest
      or goal. */
  lemma RecommendedIff(catalog: seq<Course>, cmp: Comparer, interest: string, goal: string, c: Course)
    ensures c in Recommend(catalog, cmp, interest, goal)
        <==> c in catalog
             && exists t :: t in c.tags
                  && (cmp.score(cmp.lower(interest), cmp.lower(t)) > Threshold
                      || cmp.score(cmp.lower(goal), cmp.lower(t)) > Threshold)
  {
    RecommendCount(catalog, cmp, interest, goal, c);
    if exists t :: t in c.tags && TagMatches(cmp, interest, goal, t) {
      var t :| t in c.tags && TagMatches(cmp, interest, goal, t);
      var k :| 0 <= k < |c.tags| && c.tags[k] == t;
      assert TagMatches(cmp, interest, goal, c.tags[k]);
    }
  }

  /** A course without tags is never recommended, whatever the inputs. */
  lemma UntaggedNeverRecommended(catalog: seq<Course>, cmp: Comparer, interest: string, goal: string, c: Course)
    requires c.tags == []
    ensures c !in Recommend(catalog, cmp, interest, goal)
  {
  }

  /** A score of exactly the threshold is not a match: if every tag of every
      catalog course scores at most 85 against both inputs, nothing is
      recommended. */
  lemma NothingAboveThreshold(catalog: seq<Course>, cmp: Comparer, interest: string, goal: string)
    requires forall c, t :: c in catalog && t in c.tags ==>
               cmp.score(cmp.lower(interest), cmp.lower(t)) <= Threshold
               && cmp.score(cmp.lower(goal), cmp.lower(t)) <= Threshold
    ensures Recommend(catalog, cmp, interest, goal) == []
  {
  }

  /** An input that lower-cases to the same text as one of a course's tags
      gets that course recommended, assuming an exact alignment of that
      text scores 100. */
  lemma ExactTagRecommended(catalog: seq<Course>, cmp: Comparer, interest: string, goal: string, c: Course, t: string)
    requires c in catalog && t in c.tags
    requires cmp.lower(interest) == cmp.lower(t) || cmp.lower(goal) == cmp.lower(t)
    requires cmp.score(cmp.lower(t), cmp.lower(t)) == 100
    ensures c in Recommend(catalog, cmp, interest, goal)
  {
    RecommendedIff(catalog, cmp, interest, goal, c);
  }

  /** Matching is case-insensitive: inputs that lower-case alike get the
      same recommendations. */
  lemma {:induction false} CaseInsensitive(catalog: seq<Course>, cmp: Comparer, interest1: string, goal1: string, interest2: string, goal2: string)
    requires cmp.lower(interest1) == cmp.lower(interest2)
    requires cmp.lower(goal1) == cmp.lower(goal2)
    ensures Recommend(catalog, cmp, interest1, goal1) == Recommend(catalog, cmp, interest2, goal2)
    decreases |catalog|
  {
    if catalog != [] {
      CaseInsensitive(catalog[1..], cmp, interest1, goal1, interest2, goal2);
      assert CourseMatches(cmp, interest1, goal1, catalog[0]) <==> CourseMatches(cmp, interest2, goal2, catalog[0]) by {
        forall k | 0 <= k < |catalog[0].tags|
          ensures TagMatches(cmp, interest1, goal1, catalog[0].tags[k]) <==> TagMatches(cmp, interest2, goal2, catalog[0].tags[k])
        {
        }
      }
    }
  }
}
