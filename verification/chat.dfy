/** The chat front-end's per-message transition: greeting detection, then
    filling the four profile fields in a fixed order, then, once all four
    were already set, roadmap generation and course matching. */
module ChatSession {
  import opened Wrappers
  import opened CourseMatcher
  import Text
  import Roadmap

  datatype Role = User | Assistant

  /** One transcript entry. */
  datatype Message = Message(role: Role, content: string)

  /** The four profile fields, in the order they are asked for. */
  datatype Field = Age | Qualification | Interest | Goal

  /** Position of a field in the collection order. */
  function Rank(f: Field): nat
  {
    match f
    case Age => 0
    case Qualification => 1
    case Interest => 2
    case Goal => 3
  }

  /** The field in a given position of the collection order. */
  function FieldAt(k: nat): (f: Field)
    requires k < 4
    ensures Rank(f) == k
  {
    if k == 0 then Age else if k == 1 then Qualification else if k == 2 then Interest else Goal
  }

  /** The field's key in the session's profile dictionary. */
  function Key(f: Field): string
  {
    match f
    case Age => "age"
    case Qualification => "qualification"
    case Interest => "interest"
    case Goal => "goal"
  }

  /** The profile being collected; `None` is a field not yet given. */
  datatype Profile = Profile(age: Option<string>, qualification: Option<string>, interest: Option<string>, goal: Option<string>)

  const EmptyProfile: Profile := Profile(None, None, None, None)

  function Get(p: Profile, f: Field): Option<string>
  {
    match f
    case Age => p.age
    case Qualification => p.qualification
    case Interest => p.interest
    case Goal => p.goal
  }

  /** Stores `v` in field `f` and leaves the other three alone. */
  function Set(p: Profile, f: Field, v: string): (r: Profile)
    ensures Get(r, f) == Some(v)
    ensures forall g :: g != f ==> Get(r, g) == Get(p, g)
  {
    match f
    case Age => p.(age := Some(v))
    case Qualification => p.(qualification := Some(v))
    case Interest => p.(interest := Some(v))
    case Goal => p.(goal := Some(v))
  }

  /** All four fields are set. */
  predicate Complete(p: Profile)
  {
    Get(p, Age).Some? && Get(p, Qualification).Some? && Get(p, Interest).Some? && Get(p, Goal).Some?
  }

  /** The first unset field in collection order, if any. */
  function FirstMissing(p: Profile): (r: Option<Field>)
    ensures r.None? <==> Complete(p)
    ensures r.Some? ==> Get(p, r.value).None? && forall g :: Rank(g) < Rank(r.value) ==> Get(p, g).Some?
  {
    if p.age.None? then Some(Age)
    else if p.qualification.None? then Some(Qualification)
    else if p.interest.None? then Some(Interest)
    else if p.goal.None? then Some(Goal)
    else None
  }

  /** The four canned replies. */
  datatype Canned = HelloReply | HiReply | HowAreYouReply | CapabilitiesReply

  function CannedText(c: Canned): string
  {
    match c
    case HelloReply => "Hello! How can I assist you today?"
    case HiReply => "Hi there! What can I help you with?"
    case HowAreYouReply => "I'm just a chatbot, but I'm here to help you!"
    case CapabilitiesReply => "I can guide you on learning paths, recommend courses, and generate a career roadmap."
  }

  /** The canned replies, keyed by the text whose presence in the
      lower-cased message triggers them, in dictionary order. */
  const Greetings: seq<(string, Canned)> := [
    ("hello", HelloReply),
    ("hi", HiReply),
    ("how are you", HowAreYouReply),
    ("what can you do", CapabilitiesReply)
  ]

  /** Entry `k` of `table` is the first whose key occurs in `text`. */
  predicate FirstHit(text: string, table: seq<(string, Canned)>, k: int)
  {
    && 0 <= k < |table|
    && Text.Contains(text, table[k].0)
    && forall j :: 0 <= j < k ==> !Text.Contains(text, table[j].0)
  }

  /** The reply of the first entry of `table` whose key occurs in `text`. */
  function GreetingFor(text: string, table: seq<(string, Canned)>): (r: Option<Canned>)
    ensures r.None? <==> forall k :: 0 <= k < |table| ==> !Text.Contains(text, table[k].0)
    ensures r.Some? ==> exists k :: FirstHit(text, table, k) && r.value == table[k].1
    decreases |table|
  {
    if table == [] then None
    else if Text.Contains(text, table[0].0) then
      assert FirstHit(text, table, 0);
      Some(table[0].1)
    else
      var r := GreetingFor(text, table[1..]);
      assert r.Some? ==> exists k :: FirstHit(text, table, k) && r.value == table[k].1 by {
        if r.Some? {
          var k :| FirstHit(text, table[1..], k) && r.value == table[1..][k].1;
          assert FirstHit(text, table, k + 1);
        }
      }
      r
  }

  /** The collaborators a session consults: the course catalog, the string
      comparer, and the outcome of the language-model call for a profile. */
  datatype Backend = Backend(catalog: seq<Course>, cmp: Comparer, llm: Profile -> Option<string>)

  /** What the assistant does with one message. */
  datatype Turn =
    | Greeted(reply: Canned)
    | Asked(field: Field)
    | Generated(roadmap: string, courses: seq<Course>)

  /** The turn taken and the profile after it. */
  datatype Outcome = Outcome(turn: Turn, profile: Profile)

  predicate IsGreeting(input: string, env: Backend)
  {
    GreetingFor(env.cmp.lower(input), Greetings).Some?
  }

  /** The transition for one non-empty message. The lemmas below state what
      it does in each case. */
  function Respond(p: Profile, input: string, env: Backend): (o: Outcome)
    ensures IsGreeting(input, env) ==> o.turn.Greeted? && o.profile == p
    ensures !IsGreeting(input, env) && !Complete(p) ==>
              o.turn.Asked? && FirstMissing(p) == Some(o.turn.field) && o.profile == Set(p, o.turn.field, input)
    ensures o.turn.Generated? <==> !IsGreeting(input, env) && Complete(p)
    ensures o.turn.Generated? ==>
              o.profile == p
              && o.turn.roadmap == Roadmap.RoadmapText(env.llm(p))
              && o.turn.courses == Recommend(env.catalog, env.cmp, p.interest.value, p.goal.value)
  {
    match GreetingFor(env.cmp.lower(input), Greetings)
    case Some(reply) => Outcome(Greeted(reply), p)
    case None =>
      match FirstMissing(p)
      case Some(f) => Outcome(Asked(f), Set(p, f, input))
      case None =>
        Outcome(Generated(Roadmap.RoadmapText(env.llm(p)),
                          Recommend(env.catalog, env.cmp, p.interest.value, p.goal.value)), p)
  }

  /** A message containing a greeting key gets the reply of the first such
      key in table order, and no field changes. */
  lemma GreetingLeavesProfile(p: Profile, input: string, env: Backend)
    requires IsGreeting(input, env)
    ensures Respond(p, input, env).profile == p
    ensures exists k :: FirstHit(env.cmp.lower(input), Greetings, k)
                        && Respond(p, input, env).turn == Greeted(Greetings[k].1)
  {
  }

  /** A message without a greeting key, while some field is unset, is stored
      verbatim in the first unset field in collection order; the other
      fields keep their values. */
  lemma FillsFirstUnset(p: Profile, input: string, env: Backend)
    requires !IsGreeting(input, env) && !Complete(p)
    ensures exists f :: && Get(p, f).None?
                        && (forall g :: Rank(g) < Rank(f) ==> Get(p, g).Some?)
                        && Respond(p, input, env).turn == Asked(f)
                        && forall g :: Get(Respond(p, input, env).profile, g) == if g == f then Some(input) else Get(p, g)
  {
    var f := FirstMissing(p).value;
    assert Respond(p, input, env).turn == Asked(f);
  }

  /** No field that was set is ever overwritten, and fields only go from
      unset to set. */
  lemma NeverOverwrites(p: Profile, input: string, env: Backend, f: Field)
    requires Get(p, f).Some?
    ensures Get(Respond(p, input, env).profile, f) == Get(p, f)
  {
  }

  const RoadmapHeading: string := "\U{1F4CD} **Here\U{2019}s your personalized learning roadmap:**\n\n"
  const CoursesHeading: string := "\U{1F4DA} **Recommended Courses:**\n"

  /** One Markdown bullet per course. */
  function CourseLines(courses: seq<Course>): (r: string)
    ensures courses != [] ==> |r| > 0 && r[|r| - 1] == '\n'
  {
    if courses == [] then ""
    else "- **" + courses[0].name + "**: " + courses[0].description + "\n" + CourseLines(courses[1..])
  }

  predicate EndsWith(s: string, suffix: string)
  {
    |suffix| <= |s| && s[|s| - |suffix|..] == suffix
  }

  /** The final reply: the roadmap verbatim after its heading, then the
      course bullets, or the placeholder exactly when there are none. */
  function GeneratedReply(roadmap: string, courses: seq<Course>): (r: string)
    ensures |RoadmapHeading| + |roadmap| <= |r|
    ensures r[|RoadmapHeading|..|RoadmapHeading| + |roadmap|] == roadmap
    ensures EndsWith(r, NoCoursesMessage) <==> courses == []
  {
    var lines := if courses == [] then NoCoursesMessage else CourseLines(courses);
    var r := RoadmapHeading + roadmap + "\n\n" + CoursesHeading + lines;
    assert r[|r| - 1] == lines[|lines| - 1];
    assert r[|RoadmapHeading|..|RoadmapHeading| + |roadmap|] == roadmap;
    r
  }

  /** The text of the assistant's reply for a turn. The slot-filling reply
      names the field the message was just stored in. */
  function Reply(t: Turn): string
  {
    match t
    case Greeted(c) => CannedText(c)
    case Asked(f) => "Could you provide your " + Key(f) + "? \U{1F60A}"
    case Generated(roadmap, courses) => GeneratedReply(roadmap, courses)
  }

  /** After storing a message, the assistant asks for the field the message
      was just stored in (the first field that was unset), not for the next
      one still missing. */
  lemma AskedNamesFilledField(p: Profile, input: string, env: Backend)
    requires !IsGreeting(input, env) && !Complete(p)
    ensures exists f :: && Get(p, f).None?
                        && Get(Respond(p, input, env).profile, f) == Some(input)
                        && Reply(Respond(p, input, env).turn) == "Could you provide your " + Key(f) + "? \U{1F60A}"
  {
    var f := FirstMissing(p).value;
    assert Respond(p, input, env).turn == Asked(f);
  }

  /** The first answer in a fresh session is stored as the age, and the
      assistant then asks for the age again rather than the qualification. */
  lemma FirstAnswerAsksForAge(input: string, env: Backend)
    requires input != "" && !IsGreeting(input, env)
    ensures var s := Step(Start, input, env);
            && s.profile == EmptyProfile.(age := Some(input))
            && s.messages == Start.messages + [Message(User, input), Message(Assistant, "Could you provide your age? \U{1F60A}")]
  {
    assert Respond(EmptyProfile, input, env) == Outcome(Asked(Age), EmptyProfile.(age := Some(input)));
    assert Reply(Asked(Age)) == "Could you provide your age? \U{1F60A}";
  }

  /** The chat session: transcript and profile. */
  datatype Session = Session(messages: seq<Message>, profile: Profile)

  const Welcome: string := "Hello! How can I help you with your learning journey today?"

  /** A fresh session: the welcome message and an empty profile. */
  const Start: Session := Session([Message(Assistant, Welcome)], EmptyProfile)

  /** One submission from the chat box. An empty submission does nothing;
      any other appends the user's message and then the assistant's reply. */
  function Step(s: Session, input: string, env: Backend): (r: Session)
    ensures input == "" ==> r == s
    ensures input != "" ==>
              var o := Respond(s.profile, input, env);
              && |r.messages| == |s.messages| + 2
              && r.messages[..|s.messages|] == s.messages
              && r.messages[|s.messages|] == Message(User, input)
              && r.messages[|s.messages| + 1] == Message(Assistant, Reply(o.turn))
              && r.profile == o.profile
  {
    if input == "" then s
    else
      var o := Respond(s.profile, input, env);
      Session(s.messages + [Message(User, input), Message(Assistant, Reply(o.turn))], o.profile)
  }

  /** The profile after a sequence of messages, each handled by `Respond`. */
  function Run(p: Profile, inputs: seq<string>, env: Backend): Profile
    decreases |inputs|
  {
    if inputs == [] then p
    else Respond(Run(p, inputs[..|inputs| - 1], env), inputs[|inputs| - 1], env).profile
  }

  /** Running two batches of messages is running their concatenation. */
  lemma {:induction false} RunAppend(p: Profile, a: seq<string>, b: seq<string>, env: Backend)
    ensures Run(p, a + b, env) == Run(Run(p, a, env), b, env)
    decreases |b|
  {
    if b == [] {
      assert a + b == a;
    } else {
      assert (a + b)[..|a + b| - 1] == a + b[..|b| - 1];
      RunAppend(p, a, b[..|b| - 1], env);
    }
  }

  /** Once every field is set, further non-greeting messages change nothing. */
  lemma {:induction false} CompleteIsFinal(p: Profile, inputs: seq<string>, env: Backend)
    requires Complete(p)
    requires forall k :: 0 <= k < |inputs| ==> !IsGreeting(inputs[k], env)
    ensures Run(p, inputs, env) == p
    decreases |inputs|
  {
    if inputs != [] {
      CompleteIsFinal(p, inputs[..|inputs| - 1], env);
    }
  }

  /** The profile whose first `|xs|` fields, in collection order, hold `xs`
      and whose other fields are unset. */
  function Filled(xs: seq<string>): (p: Profile)
    requires |xs| <= 4
    ensures forall k :: 0 <= k < 4 ==> Get(p, FieldAt(k)) == if k < |xs| then Some(xs[k]) else None
  {
    Profile(if 0 < |xs| then Some(xs[0]) else None,
            if 1 < |xs| then Some(xs[1]) else None,
            if 2 < |xs| then Some(xs[2]) else None,
            if 3 < |xs| then Some(xs[3]) else None)
  }

  /** A non-greeting message stores itself in the first unset field. */
  lemma FillStep(p: Profile, input: string, env: Backend)
    requires !IsGreeting(input, env) && FirstMissing(p).Some?
    ensures Respond(p, input, env).profile == Set(p, FirstMissing(p).value, input)
  {
  }

  /** Filling the next field of a partly filled profile extends it by one. */
  lemma FilledExtend(xs: seq<string>, x: string)
    requires |xs| < 4
    ensures FirstMissing(Filled(xs)) == Some(FieldAt(|xs|))
    ensures Set(Filled(xs), FieldAt(|xs|), x) == Filled(xs + [x])
  {
  }

  /** From an empty profile, the first (up to) four non-greeting messages
      are stored verbatim in age, qualification, interest and goal, in that
      order, and the remaining fields stay unset. */
  lemma {:induction false} FillsInOrder(inputs: seq<string>, env: Backend)
    requires |inputs| <= 4
    requires forall k :: 0 <= k < |inputs| ==> !IsGreeting(inputs[k], env)
    ensures Run(EmptyProfile, inputs, env) == Filled(inputs)
    decreases |inputs|
  {
    if inputs == [] {
      assert Filled(inputs) == EmptyProfile;
    } else {
      var n := |inputs| - 1;
      var prefix := inputs[..n];
      var x := inputs[n];
      assert forall j :: 0 <= j < |prefix| ==> !IsGreeting(prefix[j], env);
      FillsInOrder(prefix, env);
      FilledExtend(prefix, x);
      assert prefix + [x] == inputs;
      assert !IsGreeting(x, env);
      FillStep(Filled(prefix), x, env);
    }
  }

  /** After four or more non-greeting messages from an empty profile, the
      profile holds the first four of them and nothing later changes it. */
  lemma CompleteAfterFour(inputs: seq<string>, env: Backend)
    requires 4 <= |inputs|
    requires forall j :: 0 <= j < |inputs| ==> !IsGreeting(inputs[j], env)
    ensures Run(EmptyProfile, inputs, env) == Filled(inputs[..4])
  {
    var first := inputs[..4];
    var rest := inputs[4..];
    assert forall j :: 0 <= j < |first| ==> !IsGreeting(first[j], env);
    assert forall j :: 0 <= j < |rest| ==> !IsGreeting(rest[j], env);
    FillsInOrder(first, env);
    CompleteIsFinal(Filled(first), rest, env);
    assert inputs == first + rest;
    RunAppend(EmptyProfile, first, rest, env);
  }

  /** Whether a non-greeting message generates depends only on whether the
      profile was already complete. */
  lemma GeneratesIffComplete(p: Profile, input: string, env: Backend)
    requires !IsGreeting(input, env)
    ensures Respond(p, input, env).turn.Generated? <==> Complete(p)
  {
  }

  /** The profile a run of `k` non-greeting messages leaves is complete iff
      `k >= 4`. */
  lemma CompleteIffFour(inputs: seq<string>, env: Backend)
    requires forall j :: 0 <= j < |inputs| ==> !IsGreeting(inputs[j], env)
    ensures Complete(Run(EmptyProfile, inputs, env)) <==> |inputs| >= 4
  {
    if |inputs| < 4 {
      FillsInOrder(inputs, env);
      assert Get(Filled(inputs), FieldAt(|inputs|)).None?;
    } else {
      CompleteAfterFour(inputs, env);
    }
  }

  /** Generation first happens on the fifth non-greeting message: the
      message at index `k` of a run from an empty profile produces the
      roadmap exactly when `k >= 4`. */
  lemma GeneratesFromFifth(inputs: seq<string>, env: Backend, k: nat)
    requires forall j :: 0 <= j < |inputs| ==> !IsGreeting(inputs[j], env)
    requires k < |inputs|
    ensures Respond(Run(EmptyProfile, inputs[..k], env), inputs[k], env).turn.Generated? <==> k >= 4
  {
    var prefix := inputs[..k];
    assert forall j :: 0 <= j < |prefix| ==> !IsGreeting(prefix[j], env);
    CompleteIffFour(prefix, env);
    GeneratesIffComplete(Run(EmptyProfile, prefix, env), inputs[k], env);
  }

  /** The messages of a run that are not greetings, in order. */
  function NonGreetings(inputs: seq<string>, env: Backend): (r: seq<string>)
    ensures |r| <= |inputs|
    ensures forall k :: 0 <= k < |r| ==> !IsGreeting(r[k], env) && r[k] in inputs
    ensures (forall k :: 0 <= k < |inputs| ==> !IsGreeting(inputs[k], env)) ==> r == inputs
    decreases |inputs|
  {
    if inputs == [] then []
    else
      var prefix := inputs[..|inputs| - 1];
      var last := inputs[|inputs| - 1];
      assert forall x :: x in prefix ==> x in inputs;
      assert prefix + [last] == inputs;
      if IsGreeting(last, env) then NonGreetings(prefix, env)
      else NonGreetings(prefix, env) + [last]
  }

  /** Greetings leave the profile alone, so a run has the same effect as
      the run of its non-greeting messages. */
  lemma {:induction false} RunSkipsGreetings(p: Profile, inputs: seq<string>, env: Backend)
    ensures Run(p, inputs, env) == Run(p, NonGreetings(inputs, env), env)
    decreases |inputs|
  {
    if inputs != [] {
      var prefix := inputs[..|inputs| - 1];
      var last := inputs[|inputs| - 1];
      RunSkipsGreetings(p, prefix, env);
      if !IsGreeting(last, env) {
        var kept := NonGreetings(prefix, env) + [last];
        assert kept[..|kept| - 1] == NonGreetings(prefix, env);
      }
    }
  }

  /** In any session, greetings included, the first four non-greeting
      messages are stored verbatim in age, qualification, interest and
      goal, in that order, and later messages change nothing. */
  lemma FillsNonGreetingsInOrder(inputs: seq<string>, env: Backend)
    ensures |NonGreetings(inputs, env)| <= 4 ==> Run(EmptyProfile, inputs, env) == Filled(NonGreetings(inputs, env))
    ensures |NonGreetings(inputs, env)| >= 4 ==> Run(EmptyProfile, inputs, env) == Filled(NonGreetings(inputs, env)[..4])
  {
    var kept := NonGreetings(inputs, env);
    RunSkipsGreetings(EmptyProfile, inputs, env);
    if |kept| <= 4 {
      FillsInOrder(kept, env);
    }
    if |kept| >= 4 {
      CompleteAfterFour(kept, env);
    }
  }

  /** In any session, greetings included, message `k` produces the roadmap
      exactly when it is not a greeting and at least four non-greeting
      messages came before it: the fifth non-greeting message is the first
      to generate. */
  lemma GeneratesOnFifthNonGreeting(inputs: seq<string>, env: Backend, k: nat)
    requires k < |inputs|
    ensures Respond(Run(EmptyProfile, inputs[..k], env), inputs[k], env).turn.Generated?
        <==> !IsGreeting(inputs[k], env) && |NonGreetings(inputs[..k], env)| >= 4
  {
    var kept := NonGreetings(inputs[..k], env);
    RunSkipsGreetings(EmptyProfile, inputs[..k], env);
    CompleteIffFour(kept, env);
  }

  /** A sequence of chat submissions applied to a session. */
  function Converse(s: Session, inputs: seq<string>, env: Backend): Session
    decreases |inputs|
  {
    if inputs == [] then s
    else Step(Converse(s, inputs[..|inputs| - 1], env), inputs[|inputs| - 1], env)
  }

  /** Non-empty submissions grow the transcript by two entries each and
      drive the profile exactly as `Run` does. */
  lemma {:induction false} ConverseTracksRun(s: Session, inputs: seq<string>, env: Backend)
    requires forall k :: 0 <= k < |inputs| ==> inputs[k] != ""
    ensures |Converse(s, inputs, env).messages| == |s.messages| + 2 * |inputs|
    ensures Converse(s, inputs, env).messages[..|s.messages|] == s.messages
    ensures Converse(s, inputs, env).profile == Run(s.profile, inputs, env)
    decreases |inputs|
  {
    if inputs != [] {
      var prefix := inputs[..|inputs| - 1];
      ConverseTracksRun(s, prefix, env);
      var mid := Converse(s, prefix, env);
      assert mid.messages[..|s.messages|] == s.messages;
      assert Converse(s, inputs, env).messages[..|mid.messages|] == mid.messages;
      assert Converse(s, inputs, env).messages[..|s.messages|] == mid.messages[..|s.messages|];
    }
  }

  lemma MachineLearningHasHi()
    ensures Text.Contains("machine learning", "hi")
  {
    assert Text.OccursAt("machine learning", "hi", 3);
    Text.OccurrenceIsContained("machine learning", "hi", 3);
  }

  lemma MachineLearningLacksHello()
    ensures !Text.Contains("machine learning", "hello")
  {
    var text := "machine learning";
    assert forall i :: 0 <= i < |text| - 1 ==> !(text[i] == 'h' && text[i + 1] == 'e');
    Text.AbsentWithoutFirstPair(text, "hello");
  }

  /** "machine learning" contains "hi" (in "mac-hi-ne") but not "hello". */
  lemma MachineLearningGetsHiReply()
    ensures GreetingFor("machine learning", Greetings) == Some(HiReply)
  {
    MachineLearningHasHi();
    MachineLearningLacksHello();
    assert Greetings[0].0 == "hello" && Greetings[1] == ("hi", HiReply);
  }

  /** Greeting detection is by substring: a message that lower-cases to
      "machine learning" gets the "hi" reply and the profile is left
      unchanged. */
  lemma MachineLearningIsGreeting(p: Profile, input: string, env: Backend)
    requires env.cmp.lower(input) == "machine learning"
    ensures Respond(p, input, env) == Outcome(Greeted(HiReply), p)
  {
    MachineLearningGetsHiReply();
  }
}
