/** The `/generate-roadmap` HTTP endpoint (`generate_roadmap`): key-presence
    validation, course matching on the decoded JSON values, and shaping of
    the 200 / 400 / 500 responses. Every exception the handler can raise is
    a `Failure` whose text is what `str(e)` renders. */
module RoadmapApi {
  import opened Wrappers
  import opened Json
  import opened CourseMatcher
  import Text
  import Roadmap

  /** The keys a request body must contain, in the order they are checked. */
  const RequiredKeys: seq<string> := ["age", "qualification", "interest", "goal"]

  const MissingFieldsMessage: string := "Missing required fields"

  /** The request as the web framework hands it over: a decoded JSON body,
      or a body it refused to decode, with the text of the exception it
      raised. */
  datatype Request = Decoded(body: Json) | Undecodable(reason: string)

  /** A status code and a JSON body. */
  datatype Response = Response(status: int, body: Json)

  function ErrorResponse(status: int, message: string): Response
  {
    Response(status, JObject(map["error" := JString(message)]))
  }

  /** The text of the `AttributeError` raised by calling `.lower()` on a
      value that is not a string. */
  function NoLowerMessage(v: Json): string
  {
    "'" + TypeName(v) + "' object has no attribute 'lower'"
  }

  /** `v.lower()` for a decoded JSON value. */
  function LowerOf(v: Json, cmp: Comparer): Result<string>
  {
    if v.JString? then Success(cmp.lower(v.s)) else Failure(NoLowerMessage(v))
  }

  /** The tag scan of the matcher on JSON values, evaluated as Python does:
      the interest is lower-cased before each tag is scored, and the goal
      is lower-cased only when the interest's score did not already match
      (short-circuit `or`). */
  function TagsMatchJson(tags: seq<string>, cmp: Comparer, interest: Json, goal: Json): (r: Result<bool>)
    ensures interest.JString? && goal.JString? ==>
              r == Success(exists k :: 0 <= k < |tags| && TagMatches(cmp, interest.s, goal.s, tags[k]))
    ensures !interest.JString? && tags != [] ==> r == Failure(NoLowerMessage(interest))
    ensures tags == [] ==> r == Success(false)
    ensures r.Failure? ==>
              (!interest.JString? && r.error == NoLowerMessage(interest))
              || (!goal.JString? && r.error == NoLowerMessage(goal))
    decreases |tags|
  {
    if tags == [] then Success(false)
    else
      match LowerOf(interest, cmp)
      case Failure(e) => Failure(e)
      case Success(li) =>
        if cmp.score(li, cmp.lower(tags[0])) > Threshold then Success(true)
        else
          match LowerOf(goal, cmp)
          case Failure(e) => Failure(e)
          case Success(lg) =>
            if cmp.score(lg, cmp.lower(tags[0])) > Threshold then Success(true)
            else TagsMatchJson(tags[1..], cmp, interest, goal)
  }

  /** `find_relevant_courses` applied to the decoded `interest` and `goal`
      values, which need not be strings. */
  function RecommendJson(catalog: seq<Course>, cmp: Comparer, interest: Json, goal: Json): (r: Result<seq<Course>>)
    ensures interest.JString? && goal.JString? ==>
              r == Success(Recommend(catalog, cmp, interest.s, goal.s))
    ensures (forall c :: c in catalog ==> c.tags == []) ==> r == Success([])
    ensures !interest.JString? && (exists c :: c in catalog && c.tags != []) ==>
              r == Failure(NoLowerMessage(interest))
    ensures r.Failure? ==>
              (!interest.JString? && r.error == NoLowerMessage(interest))
              || (!goal.JString? && r.error == NoLowerMessage(goal))
    decreases |catalog|
  {
    if catalog == [] then Success([])
    else
      match TagsMatchJson(catalog[0].tags, cmp, interest, goal)
      case Failure(e) => Failure(e)
      case Success(found) =>
        match RecommendJson(catalog[1..], cmp, interest, goal)
        case Failure(e) => Failure(e)
        case Success(rest) => if found then Success([catalog[0]] + rest) else Success(rest)
  }

  /** Python's `key in container` on a decoded JSON value: key lookup for a
      dict, element equality for a list, substring search for a string, and
      a `TypeError` for anything else. */
  function KeyIn(key: string, container: Json): Result<bool>
  {
    match container
    case JObject(m) => Success(key in m)
    case JArray(items) => Success(JString(key) in items)
    case JString(s) => Success(Text.Contains(s, key))
    case _ => Failure("argument of type '" + TypeName(container) + "' is not iterable")
  }

  /** `all(key in container for key in keys)`, stopping at the first absent
      key and propagating the first exception. */
  function AllKeysIn(keys: seq<string>, container: Json): (r: Result<bool>)
    ensures container.JObject? ==> r == Success(forall k :: k in keys ==> k in container.fields)
    ensures container.JArray? ==> r == Success(forall k :: k in keys ==> JString(k) in container.items)
    ensures container.JString? ==> r == Success(forall k :: k in keys ==> Text.Contains(container.s, k))
    ensures keys != [] ==> (r.Success? <==> container.JObject? || container.JArray? || container.JString?)
    decreases |keys|
  {
    if keys == [] then Success(true)
    else
      match KeyIn(keys[0], container)
      case Failure(e) => Failure(e)
      case Success(false) =>
        assert keys[0] in keys;
        Success(false)
      case Success(true) =>
        assert forall k :: k in keys <==> k == keys[0] || k in keys[1..];
        AllKeysIn(keys[1..], container)
  }

  /** `container[key]` with a string key on a decoded JSON value. */
  function Subscript(container: Json, key: string): Result<Json>
  {
    match container
    case JObject(m) => if key in m then Success(m[key]) else Failure("'" + key + "'")
    case JArray(_) => Failure("list indices must be integers or slices, not str")
    case JString(_) => Failure("string indices must be integers, not 'str'")
    case _ => Failure("'" + TypeName(container) + "' object is not subscriptable")
  }

  /** A course as it is serialised in the response. */
  function CourseJson(c: Course): Json
  {
    JObject(map[
      "name" := JString(c.name),
      "description" := JString(c.description),
      "tags" := JArray(StringsJson(c.tags))])
  }

  function StringsJson(ss: seq<string>): (r: seq<Json>)
    ensures |r| == |ss|
    ensures forall k :: 0 <= k < |ss| ==> r[k] == JString(ss[k])
  {
    if ss == [] then [] else [JString(ss[0])] + StringsJson(ss[1..])
  }

  function CoursesJson(cs: seq<Course>): (r: seq<Json>)
    ensures |r| == |cs|
    ensures forall k :: 0 <= k < |cs| ==> r[k] == CourseJson(cs[k])
  {
    if cs == [] then [] else [CourseJson(cs[0])] + CoursesJson(cs[1..])
  }

  /** The success response: status 200, the roadmap, and the matched courses
      or, when there are none, the placeholder text. */
  function OkResponse(roadmap: string, courses: seq<Course>): (r: Response)
    ensures r.status == 200 && r.body.JObject?
    ensures r.body.fields.Keys == {"roadmap", "recommended_courses"}
    ensures r.body.fields["roadmap"] == JString(roadmap)
    ensures r.body.fields["recommended_courses"] == JString(NoCoursesMessage) <==> courses == []
    ensures courses != [] ==>
              r.body.fields["recommended_courses"].JArray?
              && |r.body.fields["recommended_courses"].items| == |courses|
              && forall c :: c in courses ==> CourseJson(c) in r.body.fields["recommended_courses"].items
    ensures courses != [] ==>
              forall k :: 0 <= k < |courses| ==> r.body.fields["recommended_courses"].items[k] == CourseJson(courses[k])
  {
    var recommended := if courses == [] then JString(NoCoursesMessage) else JArray(CoursesJson(courses));
    Response(200, JObject(map["roadmap" := JString(roadmap), "recommended_courses" := recommended]))
  }

  /** The body of the handler's `try` block: each step may raise, and `:-`
      lets the exception propagate to the `except` clause. */
  function Handle(data: Json, catalog: seq<Course>, cmp: Comparer, llm: Json -> Option<string>): Result<Response>
  {
    var present :- AllKeysIn(RequiredKeys, data);
    if !present then Success(ErrorResponse(400, MissingFieldsMessage))
    else
      var interest :- Subscript(data, "interest");
      var goal :- Subscript(data, "goal");
      var courses :- RecommendJson(catalog, cmp, interest, goal);
      Success(OkResponse(Roadmap.RoadmapText(llm(data)), courses))
  }

  /** The endpoint handler. `llm` is the outcome of the language-model call
      for the decoded body; it is consulted only on the success path, after
      the matcher has run. Any exception becomes a 500 carrying its text. */
  function GenerateRoadmap(request: Request, catalog: seq<Course>, cmp: Comparer, llm: Json -> Option<string>): (r: Response)
    ensures r.status == 200 || r.status == 400 || r.status == 500
    ensures r.status == 400 <==> request.Decoded? && AllKeysIn(RequiredKeys, request.body) == Success(false)
    ensures r.status == 400 ==> r == ErrorResponse(400, MissingFieldsMessage)
    ensures r.status == 500 ==>
              && r.body.JObject? && "error" in r.body.fields && r.body.fields["error"].JString?
              && r == ErrorResponse(500, r.body.fields["error"].s)
    ensures request.Undecodable? ==> r == ErrorResponse(500, request.reason)
    ensures r.status == 200 ==>
              request.Decoded? && request.body.JObject?
              && (forall k :: k in RequiredKeys ==> k in request.body.fields)
              && r.body.JObject? && "roadmap" in r.body.fields
              && r.body.fields["roadmap"] == JString(Roadmap.RoadmapText(llm(request.body)))
  {
    match request
    case Undecodable(reason) => ErrorResponse(500, reason)
    case Decoded(data) =>
      match Handle(data, catalog, cmp, llm)
      case Failure(e) => ErrorResponse(500, e)
      case Success(response) => response
  }

  /** Every 200 response lists exactly what the matcher returned for the
      body's `interest` and `goal`, whatever their types. */
  lemma SuccessListsMatcherResult(request: Request, catalog: seq<Course>, cmp: Comparer, llm: Json -> Option<string>)
    ensures var r := GenerateRoadmap(request, catalog, cmp, llm);
            r.status == 200 ==>
              && request.Decoded? && request.body.JObject?
              && "interest" in request.body.fields && "goal" in request.body.fields
              && var m := RecommendJson(catalog, cmp, request.body.fields["interest"], request.body.fields["goal"]);
              && m.Success?
              && r == OkResponse(Roadmap.RoadmapText(llm(request.body)), m.value)
  {
    assert "interest" in RequiredKeys && "goal" in RequiredKeys;
  }

  /** With the four keys present, the response follows the matcher: 500
      with the exception's text exactly when the matcher raised, and
      otherwise 200 with its courses. A non-string value that `.lower()`
      never reaches (an empty or untagged catalog, say) does no harm. */
  lemma ObjectBodyFollowsMatcher(m: map<string, Json>, catalog: seq<Course>, cmp: Comparer, llm: Json -> Option<string>)
    requires forall k :: k in RequiredKeys ==> k in m
    ensures var r := GenerateRoadmap(Decoded(JObject(m)), catalog, cmp, llm);
            var rec := RecommendJson(catalog, cmp, m["interest"], m["goal"]);
            && (r.status == 500 <==> rec.Failure?)
            && (rec.Failure? ==> r == ErrorResponse(500, rec.error))
            && (rec.Success? ==> r == OkResponse(Roadmap.RoadmapText(llm(JObject(m))), rec.value))
  {
    assert "interest" in RequiredKeys && "goal" in RequiredKeys;
  }

  /** For an object body the response is 400 exactly when one of the four
      keys is absent, and it is then the fixed error payload, whatever the
      catalog, the comparer or the language model would have done. */
  lemma ObjectMissingKeyIs400(m: map<string, Json>, catalog: seq<Course>, cmp: Comparer, llm: Json -> Option<string>)
    ensures GenerateRoadmap(Decoded(JObject(m)), catalog, cmp, llm).status == 400
        <==> exists k :: k in RequiredKeys && k !in m
    ensures (exists k :: k in RequiredKeys && k !in m) ==>
              GenerateRoadmap(Decoded(JObject(m)), catalog, cmp, llm) == ErrorResponse(400, MissingFieldsMessage)
  {
  }

  /** For an object body the only exception is the `AttributeError` of
      `.lower()` on a non-string interest or goal: a 500 response carries
      that text, and the four keys were present. */
  lemma ObjectBody500(m: map<string, Json>, catalog: seq<Course>, cmp: Comparer, llm: Json -> Option<string>)
    ensures var r := GenerateRoadmap(Decoded(JObject(m)), catalog, cmp, llm);
            r.status == 500 ==>
              && (forall k :: k in RequiredKeys ==> k in m)
              && ((!m["interest"].JString? && r == ErrorResponse(500, NoLowerMessage(m["interest"])))
                  || (!m["goal"].JString? && r == ErrorResponse(500, NoLowerMessage(m["goal"]))))
  {
    assert "interest" in RequiredKeys && "goal" in RequiredKeys;
  }

  /** Validation checks key presence only: with the four keys present and a
      string interest and goal (empty or not, with extra keys or not), the
      response is 200 with the roadmap and the matcher's courses. */
  lemma PresentKeysAccepted(m: map<string, Json>, catalog: seq<Course>, cmp: Comparer, llm: Json -> Option<string>)
    requires forall k :: k in RequiredKeys ==> k in m
    requires m["interest"].JString? && m["goal"].JString?
    ensures GenerateRoadmap(Decoded(JObject(m)), catalog, cmp, llm)
         == OkResponse(Roadmap.RoadmapText(llm(JObject(m))), Recommend(catalog, cmp, m["interest"].s, m["goal"].s))
  {
    assert "interest" in RequiredKeys && "goal" in RequiredKeys;
  }

  /** A non-string interest makes `.lower()` raise as soon as the matcher
      meets a tag, and the handler answers 500 with that exception's text. */
  lemma NonStringInterestIs500(m: map<string, Json>, catalog: seq<Course>, cmp: Comparer, llm: Json -> Option<string>)
    requires forall k :: k in RequiredKeys ==> k in m
    requires !m["interest"].JString?
    requires exists c :: c in catalog && c.tags != []
    ensures GenerateRoadmap(Decoded(JObject(m)), catalog, cmp, llm) == ErrorResponse(500, NoLowerMessage(m["interest"]))
  {
    assert "interest" in RequiredKeys && "goal" in RequiredKeys;
  }

  /** The matcher reaches `goal.lower()` on course `c` when the course has a
      tag and the interest's score against its first tag does not match;
      when that score matches, the short-circuit `or` skips the goal and
      the course is kept. */
  predicate GoalReached(c: Course, cmp: Comparer, interest: string)
  {
    c.tags != [] && cmp.score(cmp.lower(interest), cmp.lower(c.tags[0])) <= Threshold
  }

  /** With a string interest and a non-string goal, the matcher raises
      exactly when some course makes it lower-case the goal, and it then
      raises the goal's `AttributeError`. */
  lemma {:induction false} NonStringGoalRecommend(catalog: seq<Course>, cmp: Comparer, interest: string, goal: Json)
    requires !goal.JString?
    ensures RecommendJson(catalog, cmp, JString(interest), goal).Failure?
        <==> exists c :: c in catalog && GoalReached(c, cmp, interest)
    ensures RecommendJson(catalog, cmp, JString(interest), goal).Failure? ==>
              RecommendJson(catalog, cmp, JString(interest), goal) == Failure(NoLowerMessage(goal))
    ensures RecommendJson(catalog, cmp, JString(interest), goal).Success? ==>
              RecommendJson(catalog, cmp, JString(interest), goal).value == Recommend(catalog, cmp, interest, interest)
    decreases |catalog|
  {
    if catalog != [] {
      var c0 := catalog[0];
      NonStringGoalRecommend(catalog[1..], cmp, interest, goal);
      var here := TagsMatchJson(c0.tags, cmp, JString(interest), goal);
      assert here.Failure? <==> GoalReached(c0, cmp, interest);
      if here.Success? {
        assert here.value <==> CourseMatches(cmp, interest, interest, c0) by {
          if c0.tags != [] {
            assert TagMatches(cmp, interest, interest, c0.tags[0]);
          }
        }
      }
      assert (exists c :: c in catalog && GoalReached(c, cmp, interest))
          <==> GoalReached(c0, cmp, interest) || exists c :: c in catalog[1..] && GoalReached(c, cmp, interest) by {
        assert catalog == [c0] + catalog[1..];
      }
    }
  }

  /** A string interest with a non-string goal gives 500 with the goal's
      `AttributeError` text exactly when the matcher reaches the goal, and
      200 otherwise. */
  lemma NonStringGoalIs500(m: map<string, Json>, catalog: seq<Course>, cmp: Comparer, llm: Json -> Option<string>)
    requires forall k :: k in RequiredKeys ==> k in m
    requires m["interest"].JString? && !m["goal"].JString?
    ensures var r := GenerateRoadmap(Decoded(JObject(m)), catalog, cmp, llm);
            && (r.status == 500 <==> exists c :: c in catalog && GoalReached(c, cmp, m["interest"].s))
            && (r.status == 500 ==> r == ErrorResponse(500, NoLowerMessage(m["goal"])))
            && (r.status != 500 ==> r.status == 200)
  {
    assert "interest" in RequiredKeys && "goal" in RequiredKeys;
    NonStringGoalRecommend(catalog, cmp, m["interest"].s, m["goal"]);
  }

  /** The request `{"age": "20", "qualification": "BSc", "interest": "python",
      "goal": "backend developer"}` against a catalog holding a course tagged
      `["python"]` is answered 200 with that course among the
      recommendations, assuming an exact alignment scores 100. */
  lemma PythonRequestExample(catalog: seq<Course>, cmp: Comparer, llm: Json -> Option<string>, c: Course)
    requires c in catalog && c.tags == ["python"]
    requires cmp.score(cmp.lower("python"), cmp.lower("python")) == 100
    ensures var r := GenerateRoadmap(
                       Decoded(JObject(map[
                         "age" := JString("20"), "qualification" := JString("BSc"),
                         "interest" := JString("python"), "goal" := JString("backend developer")])),
                       catalog, cmp, llm);
            && r.status == 200
            && r.body.JObject? && "recommended_courses" in r.body.fields
            && r.body.fields["recommended_courses"].JArray?
            && CourseJson(c) in r.body.fields["recommended_courses"].items
  {
    var m := map[
      "age" := JString("20"), "qualification" := JString("BSc"),
      "interest" := JString("python"), "goal" := JString("backend developer")];
    PresentKeysAccepted(m, catalog, cmp, llm);
    ExactTagRecommended(catalog, cmp, "python", "backend developer", c, "python");
  }

  /** A body that is not a JSON object never succeeds: a scalar is not
      iterable, and a list or string that passes the membership test (the
      four key names among the list's items or inside the string) then
      fails on indexing by `"interest"`. */
  lemma NonObjectBodies(v: Json, catalog: seq<Course>, cmp: Comparer, llm: Json -> Option<string>)
    requires !v.JObject?
    ensures GenerateRoadmap(Decoded(v), catalog, cmp, llm).status != 200
    ensures (v.JNull? || v.JBool? || v.JInt? || v.JFloat?) ==>
              GenerateRoadmap(Decoded(v), catalog, cmp, llm)
              == ErrorResponse(500, "argument of type '" + TypeName(v) + "' is not iterable")
    ensures v.JArray? && (forall k :: k in RequiredKeys ==> JString(k) in v.items) ==>
              GenerateRoadmap(Decoded(v), catalog, cmp, llm)
              == ErrorResponse(500, "list indices must be integers or slices, not str")
    ensures v.JString? && (forall k :: k in RequiredKeys ==> Text.Contains(v.s, k)) ==>
              GenerateRoadmap(Decoded(v), catalog, cmp, llm)
              == ErrorResponse(500, "string indices must be integers, not 'str'")
  {
  }
}
