# Career-guidance assistant: course matcher, chat slot filling, roadmap endpoint

This project models, in Dafny, the pure logic of a small career-guidance
assistant with two front-ends: a Streamlit chat (`streamlit_pp.py`) and a
Flask JSON endpoint (`path_planner.py`). It covers three pieces.

- **Course matcher** (`find_relevant_courses`, the same code in both files).
  A catalog entry is kept when one of its tags scores strictly above 85
  against the lower-cased interest or the lower-cased goal. Entries are kept
  once each, in catalog order, and the tag scan stops at the first match.
  `fuzz.partial_ratio` and `str.lower` are foreign code. They are the two
  function-valued fields `score` and `lower` of `CourseMatcher.Comparer`,
  and no property of them is assumed except where a lemma states one.
- **Chat slot filling** (`streamlit_pp.py`, lines 63-111). The session holds
  a transcript and a profile of four optional fields: age, qualification,
  interest and goal. Each non-empty message is handled in a fixed order.
  1. If the lower-cased message contains a greeting key (by substring), it
     gets that key's canned reply. The first key in dictionary order wins.
  2. Otherwise, if a field is unset, the raw message is stored in the first
     unset field.
  3. Otherwise, when all four fields were already set, a roadmap and the
     matched courses are produced.
- **Roadmap endpoint** (`generate_roadmap` in `path_planner.py`). The endpoint
  checks that the four keys are present and answers 400 if one is missing.
  On success it answers 200 with the roadmap and either the course list or a
  placeholder text. Every exception gives 500 with the exception's text.
  The request body is a decoded JSON value (`Json.Json`), and Python's
  semantics for `in`, `[]` and `.lower()` on such values are written out.
  For example, a list body passes the membership test when it holds the four
  key names, and it then fails with a `TypeError` when it is indexed.

The language-model call is foreign. Its outcome is a parameter: `Some(text)`
when the model answered, `None` when it raised, and `Roadmap.RoadmapText`
turns `None` into the fixed fallback text. The course catalog is a
`seq<Course>` parameter rather than a file.

Modules: `Wrappers` (Option, Result), `Text` (substring search), `Json`,
`CourseMatcher`, `Roadmap`, `ChatSession`, `RoadmapApi`.

## Quirks the model keeps

- The roadmap is generated on the fifth non-greeting message. The fourth
  message fills `goal`. The "all fields set" test runs before a message is
  stored, and the message that triggers generation is not stored. This
  holds in any session, greetings included
  (`ChatSession.GeneratesOnFifthNonGreeting`).
- After storing a message, the chat asks again for the field it just
  stored: "Could you provide your X?", where X is that field
  (`ChatSession.AskedNamesFilledField`, `ChatSession.FirstAnswerAsksForAge`).
- Greeting detection is by substring. So an answer such as "machine
  learning" or "High School", which contain "hi" once lower-cased, is answered as a greeting
  and not stored, and the next non-greeting message takes its place
  (`ChatSession.MachineLearningIsGreeting`, `ChatSession.RunSkipsGreetings`).
- The endpoint checks key presence only. Empty strings and extra keys are
  accepted. Non-string values for `interest` or `goal` give a 500 only when
  `.lower()` is actually reached (`RoadmapApi.ObjectBodyFollowsMatcher`). Because `or` short-circuits, a non-string
  goal is never touched for a tag whose interest score already matched.

## Model

| member | source | states |
|---|---|---|
| `CourseMatcher.Recommend` | streamlit_pp.py:24-32 | the recommendations are no longer than the catalog, and every recommended course is a catalog course one of whose tags matches |
| `CourseMatcher.FindRelevantCourses` | path_planner.py:35-46 | the nested loop with `break` after the first matching tag computes exactly the filter `Recommend` |
| `CourseMatcher.RecommendIsSubsequence` | streamlit_pp.py:26-30 | the result is an order-preserving subsequence of the catalog |
| `CourseMatcher.RecommendCount` | path_planner.py:38-44 | each catalog entry contributes at most one copy: a course occurs in the result as often as in the catalog if it matches, otherwise not at all |
| `CourseMatcher.RecommendedIff` | path_planner.py:41-42 | a course is recommended iff it is in the catalog and some tag scores strictly above 85 against the lower-cased interest or goal |
| `CourseMatcher.UntaggedNeverRecommended` | streamlit_pp.py:27 | a course with an empty tag list is never recommended |
| `CourseMatcher.NothingAboveThreshold` | streamlit_pp.py:28-29 | if no tag scores above 85 (a score of exactly 85 included), the result is empty |
| `CourseMatcher.ExactTagRecommended` | streamlit_pp.py:28-29 | an interest or goal that lower-cases like a tag gets its course recommended, provided an exact alignment scores 100 |
| `CourseMatcher.CaseInsensitive` | path_planner.py:41-42 | inputs that lower-case alike get identical recommendations |
| `Text.ContainsIffOccurs` | streamlit_pp.py:88 | the substring test `key in text` holds iff the key occurs at some position of the text |
| `ChatSession.FirstMissing` | streamlit_pp.py:93-96 | the chosen field is unset and every earlier field in age, qualification, interest, goal order is set; none is chosen iff all four are set |
| `ChatSession.Set` | streamlit_pp.py:98 | storing a message fills exactly one field and leaves the other three unchanged |
| `ChatSession.GreetingFor` | streamlit_pp.py:86-90 | a reply is found iff some key occurs in the text, and it belongs to the first such key in table order |
| `ChatSession.Respond` | streamlit_pp.py:86-109 | greeting: profile unchanged; otherwise with a field unset: stored in the first unset field; generation iff not a greeting and all four fields were already set, and then the profile is unchanged and the courses are the matcher's result for the stored interest and goal |
| `ChatSession.GreetingLeavesProfile` | streamlit_pp.py:79-90 | a message containing a greeting key gets the first matching key's canned reply and changes no field |
| `ChatSession.FillsFirstUnset` | streamlit_pp.py:92-98 | a non-greeting message with a field unset is stored verbatim in the first unset field, and every other field keeps its value |
| `ChatSession.NeverOverwrites` | streamlit_pp.py:92-98 | a field that is set is never overwritten |
| `ChatSession.GeneratesIffComplete` | streamlit_pp.py:92-101 | a non-greeting message produces the roadmap iff all four fields were set before it |
| `ChatSession.CompleteIsFinal` | streamlit_pp.py:99-101 | once all four fields are set, further non-greeting messages leave the profile unchanged |
| `ChatSession.FillsInOrder` | streamlit_pp.py:63-98 | from the initial empty profile, up to four non-greeting messages fill age, qualification, interest, goal in that order, verbatim |
| `ChatSession.CompleteAfterFour` | streamlit_pp.py:93-101 | after four or more non-greeting messages the profile holds the first four of them |
| `ChatSession.CompleteIffFour` | streamlit_pp.py:93-98 | after k non-greeting messages from the empty profile, all fields are set iff k >= 4 |
| `ChatSession.GeneratesFromFifth` | streamlit_pp.py:92-109 | the message at index k of a non-greeting run produces the roadmap iff k >= 4, so the fifth message is the first |
| `ChatSession.RunSkipsGreetings` | streamlit_pp.py:86-98 | a greeting changes no field, so any run leaves the profile that its non-greeting messages alone leave |
| `ChatSession.FillsNonGreetingsInOrder` | streamlit_pp.py:63-101 | in any session, greetings included, the first four non-greeting messages fill age, qualification, interest and goal in that order, verbatim, and later messages change nothing |
| `ChatSession.GeneratesOnFifthNonGreeting` | streamlit_pp.py:86-109 | in any session, a message produces the roadmap iff it is not a greeting and at least four non-greeting messages came before it |
| `ChatSession.MachineLearningIsGreeting` | streamlit_pp.py:79-90 | a message lower-casing to "machine learning" gets the "hi" reply, because it contains "hi" but not "hello", and the profile is unchanged |
| `ChatSession.AskedNamesFilledField` | streamlit_pp.py:95-98 | after storing a message in the first unset field, the reply asks for that same field by its key |
| `ChatSession.FirstAnswerAsksForAge` | streamlit_pp.py:63-98 | in a fresh session the first non-greeting message becomes the age, and the transcript gains it and the question for the age |
| `Roadmap.RoadmapText` | path_planner.py:70-75 | the roadmap is the model's answer verbatim when it answered, and it is the fixed fallback text exactly when the call raised or the model answered that very text |
| `ChatSession.GeneratedReply` | streamlit_pp.py:103-109 | the final reply contains the roadmap verbatim after its heading, and ends with the placeholder iff no course matched |
| `ChatSession.Step` | streamlit_pp.py:74-111 | an empty submission changes nothing; otherwise the transcript grows by exactly the user's message then the assistant's reply, earlier entries untouched |
| `ChatSession.ConverseTracksRun` | streamlit_pp.py:74-111 | n non-empty submissions add 2n transcript entries after the existing ones and drive the profile as the transition does |
| `RoadmapApi.TagsMatchJson` | path_planner.py:39-42 | for string inputs the tag scan agrees with the string matcher; a non-string interest raises at the first tag; any failure is the `AttributeError` of a non-string interest or goal |
| `RoadmapApi.RecommendJson` | path_planner.py:35-46 | with string interest and goal the result is the string matcher's; with no tags anywhere it is empty; a non-string interest raises if any tag exists |
| `RoadmapApi.AllKeysIn` | path_planner.py:83-84 | the test is exactly "every required key is present" for an object body, "every key name is an item" for a list body and "every key name is a substring" for a string body; a scalar body raises |
| `RoadmapApi.OkResponse` | path_planner.py:95-100 | status 200 with exactly the keys `roadmap` and `recommended_courses`; the latter is the placeholder text iff no course matched, and otherwise the matched courses in the matcher's order, position by position |
| `RoadmapApi.GenerateRoadmap` | path_planner.py:78-104 | status is 200, 400 or 500; 400 iff the key test returns false, always with the fixed error payload; 500 is an `{"error": text}` object, and for an undecodable body the text is the decoding exception's; 200 only for an object body with all four keys, with the generator's roadmap |
| `RoadmapApi.SuccessListsMatcherResult` | path_planner.py:87-100 | every 200 response is the success response for the body's roadmap and exactly the list the matcher returned for its `interest` and `goal`, whatever their types |
| `RoadmapApi.ObjectBodyFollowsMatcher` | path_planner.py:87-104 | with the four keys present, the response is 500 with the matcher's exception text iff the matcher raised, and otherwise 200 with the matcher's courses, so a non-string value that `.lower()` never reaches is answered 200 |
| `RoadmapApi.ObjectBody500` | path_planner.py:86-104 | for an object body a 500 happens only with the four keys present, and its text is the `.lower()` `AttributeError` of a non-string interest or goal |
| `RoadmapApi.ObjectMissingKeyIs400` | path_planner.py:83-85 | an object body gets 400 iff one of the four keys is absent, and the response then does not depend on the catalog, comparer or model |
| `RoadmapApi.PresentKeysAccepted` | path_planner.py:84-100 | validation checks presence only: any string values, even empty, and extra keys give 200 with the matcher's courses |
| `RoadmapApi.NonStringInterestIs500` | path_planner.py:102-104 | a non-string interest with a tagged catalog gives 500 with the `.lower()` `AttributeError` text |
| `RoadmapApi.NonStringGoalRecommend` | path_planner.py:39-44 | with a string interest and a non-string goal, the matcher raises iff some course's first tag is not matched by the interest, and then with the goal's `AttributeError`; when it does not raise, it returns the courses the interest alone matches |
| `RoadmapApi.NonStringGoalIs500` | path_planner.py:87-104 | with a string interest and a non-string goal the response is 500 with the goal's `AttributeError` text iff the matcher reaches the goal, and 200 otherwise |
| `RoadmapApi.NonObjectBodies` | path_planner.py:80-88 | a non-object body never gets 200: scalars are not iterable, and lists or strings that pass the key test fail when indexed by a string |
| `RoadmapApi.PythonRequestExample` | path_planner.py:78-100 | the request with interest "python" against a catalog with a course tagged "python" gets 200 with that course listed, provided an exact alignment scores 100 |

## Left out

- The language-model call is modelled as a fixed function of the profile
  (chat) or of the request body (endpoint). The real call samples at
  temperature 0.3 and can fail once and succeed the next time, so repeated
  generation for the same profile may give different roadmaps. No property
  here depends on two calls agreeing.

- `generate_learning_roadmap`'s prompt text and the language-model client
  (model name, temperature 0.3, API key). These are a foreign network call.
  Only the call's outcome is modelled, as a parameter: the text, or the
  fixed fallback when it raised.
- `fuzz.partial_ratio` and Unicode `str.lower`. These are third-party and
  standard-library code. They are arbitrary functions here. The only
  property assumed about them (exact alignment scores 100) appears as a
  `requires` on the lemmas that need it.
- Loading `courses.json`. This is file I/O. The catalog is a parameter, and
  every course is assumed to have exactly the three fields `name`,
  `description` and `tags`, with string values, and no other fields, so
  that the course echoed in a response is the three-key object
  `RoadmapApi.CourseJson`. A catalog entry without `tags` (which would raise
  `KeyError`) or with extra fields is not modelled.
- JSON decoding of the request. This is framework code. A body the
  framework refuses to decode is `Undecodable(reason)` and gives 500 with
  that reason. The exact text of a framework exception depends on the
  Flask version.
- Streamlit rendering, `session_state` persistence across reruns, Flask/CORS
  setup, environment loading and `app.run`. These are UI and server
  plumbing.
- The `print` of the server error. This is logging with no effect on the
  response.
- Python exception texts are those of CPython 3.11 to 3.13. Older versions
  render string indexing errors without "not 'str'", and later versions may
  word the "is not iterable" text of `in` differently.
