/** The response-selection state machine of get_bot_response: one line of
    user text becomes one reply, and the only state carried between turns
    is the active subject. Rules are tried in strict priority order:
    greeting, resource keyword, topic of the active subject, subject (or
    alias) when none is active, fallback. */
module Conversation {
  import opened Strings
  import opened Knowledge

  /** The outcome of one turn: the reply and the active subject after it. */
  datatype Turn = Turn(reply: string, subject: string)

  const DefaultInitialGreeting := "Hello! What subject do you want to study?"
  const DefaultResources := "Sorry, I don't have any resources available."
  const DefaultFallback := "I'm not sure how to help with that."
  const DefaultDescription := "No description available."
  const LinkIntro := "\n\nHere's a great video/playlist: "
  const TopicPrompt := "I didn't catch which topic you want. Try asking about: "
  const SubjectListIntro := "\n\nAvailable subjects: "

  /** The fixed resource-intent keywords. */
  const ResourceKeywords: seq<string> :=
    ["resource", "resources", "link", "links", "note", "notes",
     "material", "materials", "study", "hub", "platform"]

  /** `normalize_text(key) in text` */
  predicate Mentions(text: string, key: string) {
    IsSubstring(Normalize(key), text)
  }

  /** Some key of the list is mentioned in the text. */
  predicate MentionsAny(text: string, keys: seq<string>) {
    exists k :: k in keys && Mentions(text, k)
  }

  /** find_partial_match: the text is normalised once more before the scan. */
  predicate FindPartialMatch(userText: string, keywords: seq<string>) {
    MentionsAny(Normalize(userText), keywords)
  }

  function InitialGreeting(kb: KnowledgeBase): string {
    kb.initialGreeting.GetOr(DefaultInitialGreeting)
  }

  function ResourcesReply(kb: KnowledgeBase): string {
    kb.resources.GetOr(DefaultResources)
  }

  function FallbackText(kb: KnowledgeBase): string {
    kb.fallback.GetOr(DefaultFallback)
  }

  /** The reply for a matched topic: its description, followed by its link
      when it has one. */
  function TopicReply(t: Topic): string {
    var description := t.description.GetOr(DefaultDescription);
    if t.link != "" then description + LinkIntro + t.link else description
  }

  /** ", ".join(k.title() for k in entries) */
  function KeyList<T>(entries: seq<(string, T)>): string {
    Join(seq(|entries|, i requires 0 <= i < |entries| => Title(entries[i].0)), ", ")
  }

  /** The greeting a newly selected subject answers with. */
  function SelectionGreeting(key: string, s: Subject): string {
    s.greeting.GetOr("Great! Let's study " + Title(key) + ".")
  }

  /** `subjects.get(current_subject, {})` */
  function ActiveSubject(kb: KnowledgeBase, current: string): Subject {
    Lookup(kb.subjects, current).GetOr(EmptySubject)
  }

  /** The index of the first topic, in declaration order, whose key the
      text mentions. */
  function FirstTopic(topics: seq<(string, Topic)>, text: string): (r: Option<nat>)
    ensures r.Some? ==> r.value < |topics| && Mentions(text, topics[r.value].0)
    ensures r.Some? ==> forall j :: 0 <= j < r.value ==> !Mentions(text, topics[j].0)
    ensures r.None? ==> forall j :: 0 <= j < |topics| ==> !Mentions(text, topics[j].0)
  {
    if topics == [] then None
    else if Mentions(text, topics[0].0) then Some(0)
    else match FirstTopic(topics[1..], text)
      case None => None
      case Some(k) => Some(k + 1)
  }

  /** A subject is mentioned by its key or by one of its aliases. */
  predicate SubjectMentioned(text: string, entry: (string, Subject)) {
    Mentions(text, entry.0) || MentionsAny(text, entry.1.aliases)
  }

  /** The index of the first subject, in declaration order, that the text
      mentions. */
  function FirstSubject(subjects: seq<(string, Subject)>, text: string): (r: Option<nat>)
    ensures r.Some? ==> r.value < |subjects| && SubjectMentioned(text, subjects[r.value])
    ensures r.Some? ==> forall j :: 0 <= j < r.value ==> !SubjectMentioned(text, subjects[j])
    ensures r.None? ==> forall j :: 0 <= j < |subjects| ==> !SubjectMentioned(text, subjects[j])
  {
    if subjects == [] then None
    else if SubjectMentioned(text, subjects[0]) then Some(0)
    else match FirstSubject(subjects[1..], text)
      case None => None
      case Some(k) => Some(k + 1)
  }

  /** The reply while a subject is active (rule 3). */
  function ActiveSubjectReply(kb: KnowledgeBase, current: string, text: string): string {
    var data := ActiveSubject(kb, current);
    match FirstTopic(data.topics, text)
    case Some(i) => TopicReply(data.topics[i].1)
    case None =>
      var topicList := KeyList(data.topics);
      if topicList != "" then TopicPrompt + topicList
      else data.greeting.GetOr("What about " + Title(current) + " would you like to know?")
  }

  /** The fallback reply, listing the subjects when there are any (rule 5). */
  function FallbackReply(kb: KnowledgeBase): string {
    var names := KeyList(kb.subjects);
    if names != "" then FallbackText(kb) + SubjectListIntro + names else FallbackText(kb)
  }

  /** One turn of get_bot_response, from the active subject before it. */
  function Step(kb: KnowledgeBase, current: string, input: string): Turn {
    var text := Normalize(input);
    if MentionsAny(text, kb.greetings) then Turn(InitialGreeting(kb), "")
    else if FindPartialMatch(text, ResourceKeywords) then Turn(ResourcesReply(kb), current)
    else if current != "" then Turn(ActiveSubjectReply(kb, current, text), current)
    else match FirstSubject(kb.subjects, text)
      case Some(i) => Turn(SelectionGreeting(kb.subjects[i].0, kb.subjects[i].1), kb.subjects[i].0)
      case None => Turn(FallbackReply(kb), current)
  }

  /** The bot: a fixed knowledge base and the active subject ("" for none). */
  class Engine {
    const kb: KnowledgeBase
    var currentSubject: string

    /** The active subject is always none or one of the subjects' keys. */
    predicate Valid()
      reads this
    {
      currentSubject == "" || IsKey(kb.subjects, currentSubject)
    }

    constructor (kb: KnowledgeBase)
      ensures this.kb == kb && currentSubject == "" && Valid()
    {
      this.kb := kb;
      currentSubject := "";
    }

    /** get_bot_response */
    method Respond(input: string) returns (reply: string)
      requires Valid()
      modifies this
      ensures Valid()
      ensures reply == Step(kb, old(currentSubject), input).reply
      ensures currentSubject == Step(kb, old(currentSubject), input).subject
    {
      var text := Normalize(input);

      var greeted := ScanMentions(text, kb.greetings);
      if greeted {
        currentSubject := "";
        return InitialGreeting(kb);
      }

      var wantsResources := PartialMatch(text, ResourceKeywords);
      if wantsResources {
        return ResourcesReply(kb);
      }

      if currentSubject != "" {
        reply := AnswerWithinSubject(text);
        return;
      }

      reply := SelectSubject(text);
    }

    /** Rule 3 of get_bot_response: scan the active subject's topics in
        declaration order; prompt with the topic names when none matches. */
    method AnswerWithinSubject(text: string) returns (reply: string)
      ensures reply == ActiveSubjectReply(kb, currentSubject, text)
    {
      var data := ActiveSubject(kb, currentSubject);
      var topics := data.topics;
      var i := 0;
      while i < |topics|
        invariant 0 <= i <= |topics|
        invariant forall j :: 0 <= j < i ==> !Mentions(text, topics[j].0)
      {
        if Mentions(text, topics[i].0) {
          assert FirstTopic(topics, text) == Some(i);
          return TopicReply(topics[i].1);
        }
        i := i + 1;
      }
      assert FirstTopic(topics, text) == None;
      var topicList := KeyList(topics);
      if topicList != "" {
        return TopicPrompt + topicList;
      }
      return data.greeting.GetOr("What about " + Title(currentSubject) + " would you like to know?");
    }

    /** Rules 4 and 5 of get_bot_response: scan the subjects in declaration
        order, each by its key and then by its aliases; select the first one
        mentioned, or fall back. */
    method SelectSubject(text: string) returns (reply: string)
      requires Valid()
      modifies this
      ensures Valid()
      ensures match FirstSubject(kb.subjects, text)
              case Some(i) => reply == SelectionGreeting(kb.subjects[i].0, kb.subjects[i].1)
                              && currentSubject == kb.subjects[i].0
              case None => reply == FallbackReply(kb) && currentSubject == old(currentSubject)
    {
      var subjects := kb.subjects;
      var i := 0;
      while i < |subjects|
        invariant 0 <= i <= |subjects|
        invariant forall j :: 0 <= j < i ==> !SubjectMentioned(text, subjects[j])
        invariant currentSubject == old(currentSubject)
      {
        var (key, data) := subjects[i];
        if Mentions(text, key) {
          FirstSubjectAt(subjects, text, i);
          currentSubject := key;
          return SelectionGreeting(key, data);
        }
        var byAlias := ScanMentions(text, data.aliases);
        if byAlias {
          FirstSubjectAt(subjects, text, i);
          currentSubject := key;
          return SelectionGreeting(key, data);
        }
        i := i + 1;
      }
      FirstSubjectNone(subjects, text);
      return FallbackReply(kb);
    }
  }

  /** The first mentioned subject is the one FirstSubject finds. */
  lemma {:induction false} FirstSubjectAt(subjects: seq<(string, Subject)>, text: string, i: nat)
    requires i < |subjects| && SubjectMentioned(text, subjects[i])
    requires forall j :: 0 <= j < i ==> !SubjectMentioned(text, subjects[j])
    ensures FirstSubject(subjects, text) == Some(i)
  {
    if i > 0 {
      FirstSubjectAt(subjects[1..], text, i - 1);
    }
  }

  /** With no subject mentioned, FirstSubject finds none. */
  lemma {:induction false} FirstSubjectNone(subjects: seq<(string, Subject)>, text: string)
    requires forall j :: 0 <= j < |subjects| ==> !SubjectMentioned(text, subjects[j])
    ensures FirstSubject(subjects, text) == None
  {
    if subjects != [] {
      FirstSubjectNone(subjects[1..], text);
    }
  }

  /** The scan of `any(normalize_text(k) in text for k in keys)`, as used
      for the greetings and for a subject's aliases: whether the text
      mentions any of the keys. */
  method ScanMentions(text: string, keys: seq<string>) returns (found: bool)
    ensures found <==> MentionsAny(text, keys)
  {
    var k := 0;
    while k < |keys|
      invariant 0 <= k <= |keys|
      invariant forall a :: 0 <= a < k ==> !Mentions(text, keys[a])
    {
      if Mentions(text, keys[k]) {
        return true;
      }
      k := k + 1;
    }
    return false;
  }

  /** find_partial_match: normalise the text, then scan the keywords. */
  method PartialMatch(userText: string, keywords: seq<string>) returns (found: bool)
    ensures found <==> FindPartialMatch(userText, keywords)
  {
    found := ScanMentions(Normalize(userText), keywords);
  }

  // ---------------------------------------------------------------------
  // Properties of one turn
  // ---------------------------------------------------------------------

  /** Neither a greeting nor a resource keyword is in the text, so the turn
      goes on to the subject rules. */
  predicate PassesFirstRules(kb: KnowledgeBase, text: string) {
    !MentionsAny(text, kb.greetings) && !FindPartialMatch(text, ResourceKeywords)
  }

  /** Rule 1 comes before everything: a greeting anywhere in the input
      clears the subject and answers with the initial greeting. */
  lemma GreetingResets(kb: KnowledgeBase, current: string, input: string, g: string)
    requires g in kb.greetings && IsSubstring(Normalize(g), Normalize(input))
    ensures Step(kb, current, input) == Turn(InitialGreeting(kb), "")
  {
  }

  /** find_partial_match normalises text that get_bot_response has already
      normalised; doing so again changes nothing. */
  lemma PartialMatchOnNormalized(input: string, keywords: seq<string>)
    ensures FindPartialMatch(Normalize(input), keywords) <==> MentionsAny(Normalize(input), keywords)
  {
    NormalizeIdempotent(input);
  }

  /** Every resource keyword is already in normal form. */
  lemma ResourceKeywordsNormalized(k: string)
    requires k in ResourceKeywords
    ensures Normalize(k) == k
  {
    assert forall i :: 0 <= i < |k| ==> IsLower(k[i]);
    assert Lower(k) == k;
    StripStable(k);
  }

  /** Rule 2: failing a greeting, any of the fixed resource keywords in the
      input answers with the resources text and keeps the active subject,
      whichever it is. */
  lemma ResourceKeywordWins(kb: KnowledgeBase, current: string, input: string, k: string)
    requires !MentionsAny(Normalize(input), kb.greetings)
    requires k in ResourceKeywords && IsSubstring(k, Normalize(input))
    ensures Step(kb, current, input) == Turn(ResourcesReply(kb), current)
  {
    NormalizeIdempotent(input);
    ResourceKeywordsNormalized(k);
    assert Mentions(Normalize(Normalize(input)), k);
  }

  /** Rule 3, a topic matches: with a subject active, the first topic in
      declaration order whose key the input mentions gives its description,
      with its link appended when it has one; the subject stays. */
  lemma TopicFirstMatch(kb: KnowledgeBase, current: string, input: string, i: nat)
    requires current != "" && PassesFirstRules(kb, Normalize(input))
    requires i < |ActiveSubject(kb, current).topics|
    requires Mentions(Normalize(input), ActiveSubject(kb, current).topics[i].0)
    requires forall j :: 0 <= j < i ==> !Mentions(Normalize(input), ActiveSubject(kb, current).topics[j].0)
    ensures var topic := ActiveSubject(kb, current).topics[i].1;
            var description := topic.description.GetOr(DefaultDescription);
            Step(kb, current, input)
            == Turn(if topic.link != "" then description + LinkIntro + topic.link else description, current)
  {
    var topics := ActiveSubject(kb, current).topics;
    assert FirstTopic(topics, Normalize(input)) == Some(i);
  }

  /** A key that is not mentioned in a text is not empty: the empty string is
      in every text. */
  lemma UnmentionedKeyNonEmpty(text: string, key: string)
    requires !Mentions(text, key)
    ensures key != "" && Title(key) != ""
  {
    EmptyIsSubstring(text);
    assert Lower("") == "";
    assert Normalize("") == "";
    TitleEmpty(key);
  }

  /** The title-cased key list is empty only when there are no keys, as
      long as no key is mentioned in the text. */
  lemma KeyListEmpty<T>(entries: seq<(string, T)>, text: string)
    requires forall j :: 0 <= j < |entries| ==> !Mentions(text, entries[j].0)
    ensures KeyList(entries) == "" <==> entries == []
  {
    if entries != [] {
      UnmentionedKeyNonEmpty(text, entries[0].0);
      var titles := seq(|entries|, i requires 0 <= i < |entries| => Title(entries[i].0));
      JoinNonEmpty(titles, ", ");
    }
  }

  /** Rule 3, no topic matches: the reply prompts with the subject's topic
      names, title-cased and comma-joined, or is the subject's greeting when
      it has no topics; the subject stays. */
  lemma UnmatchedTopicPrompts(kb: KnowledgeBase, current: string, input: string)
    requires current != "" && PassesFirstRules(kb, Normalize(input))
    requires forall j :: 0 <= j < |ActiveSubject(kb, current).topics|
                         ==> !Mentions(Normalize(input), ActiveSubject(kb, current).topics[j].0)
    ensures Step(kb, current, input).subject == current
    ensures var data := ActiveSubject(kb, current);
            data.topics != [] ==> Step(kb, current, input).reply == TopicPrompt + KeyList(data.topics)
    ensures var data := ActiveSubject(kb, current);
            data.topics == [] ==> Step(kb, current, input).reply
                                  == data.greeting.GetOr("What about " + Title(current) + " would you like to know?")
  {
    var data := ActiveSubject(kb, current);
    assert FirstTopic(data.topics, Normalize(input)) == None;
    KeyListEmpty(data.topics, Normalize(input));
  }

  /** Rule 4: with no subject active, the first subject in declaration order
      mentioned by its key or by one of its aliases becomes active and
      answers with its greeting. */
  lemma SubjectFirstMatch(kb: KnowledgeBase, input: string, i: nat)
    requires PassesFirstRules(kb, Normalize(input))
    requires i < |kb.subjects| && SubjectMentioned(Normalize(input), kb.subjects[i])
    requires forall j :: 0 <= j < i ==> !SubjectMentioned(Normalize(input), kb.subjects[j])
    ensures Step(kb, "", input) == Turn(SelectionGreeting(kb.subjects[i].0, kb.subjects[i].1), kb.subjects[i].0)
  {
    assert FirstSubject(kb.subjects, Normalize(input)) == Some(i);
  }

  /** Rule 4 does not care whether a subject was named by its key or by an
      alias: two inputs that both first mention the same subject select it
      alike. */
  lemma AliasSelectsLikeKey(kb: KnowledgeBase, byKey: string, byAlias: string, i: nat, a: nat)
    requires PassesFirstRules(kb, Normalize(byKey)) && PassesFirstRules(kb, Normalize(byAlias))
    requires i < |kb.subjects| && a < |kb.subjects[i].1.aliases|
    requires Mentions(Normalize(byKey), kb.subjects[i].0)
    requires Mentions(Normalize(byAlias), kb.subjects[i].1.aliases[a])
    requires forall j :: 0 <= j < i ==> !SubjectMentioned(Normalize(byKey), kb.subjects[j])
    requires forall j :: 0 <= j < i ==> !SubjectMentioned(Normalize(byAlias), kb.subjects[j])
    ensures Step(kb, "", byAlias) == Step(kb, "", byKey)
    ensures Step(kb, "", byAlias).subject == kb.subjects[i].0
  {
    SubjectFirstMatch(kb, byKey, i);
    SubjectFirstMatch(kb, byAlias, i);
  }

  /** Rule 5: with no subject active and nothing mentioned, the reply is the
      fallback, followed by the title-cased subject names when there are
      subjects, and no subject becomes active. */
  lemma FallbackWhenNothingMatches(kb: KnowledgeBase, input: string)
    requires PassesFirstRules(kb, Normalize(input))
    requires forall j :: 0 <= j < |kb.subjects| ==> !SubjectMentioned(Normalize(input), kb.subjects[j])
    ensures Step(kb, "", input).subject == ""
    ensures kb.subjects != [] ==> KeyList(kb.subjects) != ""
                                  && Step(kb, "", input).reply == FallbackText(kb) + SubjectListIntro + KeyList(kb.subjects)
    ensures kb.subjects == [] ==> Step(kb, "", input).reply == FallbackText(kb)
  {
    assert FirstSubject(kb.subjects, Normalize(input)) == None;
    KeyListEmpty(kb.subjects, Normalize(input));
  }

  /** While a subject is active only a greeting leaves it; subject selection
      and the fallback are never reached. */
  lemma ActiveSubjectPersists(kb: KnowledgeBase, current: string, input: string)
    requires current != ""
    ensures var t := Step(kb, current, input);
            if MentionsAny(Normalize(input), kb.greetings) then t == Turn(InitialGreeting(kb), "")
            else t.subject == current
                 && (t.reply == ResourcesReply(kb) || t.reply == ActiveSubjectReply(kb, current, Normalize(input)))
  {
  }

  /** The active subject is only ever none or a subject key, and it changes
      only on a greeting (to none) or on a selection made while none was
      active (to the subject mentioned). */
  lemma SubjectTransitions(kb: KnowledgeBase, current: string, input: string)
    requires current == "" || IsKey(kb.subjects, current)
    ensures var next := Step(kb, current, input).subject;
            next == "" || IsKey(kb.subjects, next)
    ensures var next := Step(kb, current, input).subject;
            next != current ==>
              (next == "" && MentionsAny(Normalize(input), kb.greetings))
              || (current == "" && exists i :: 0 <= i < |kb.subjects| && kb.subjects[i].0 == next
                                               && SubjectMentioned(Normalize(input), kb.subjects[i]))
  {
    var text := Normalize(input);
    if !MentionsAny(text, kb.greetings) && !FindPartialMatch(text, ResourceKeywords) && current == "" {
      match FirstSubject(kb.subjects, text)
      case Some(i) =>
        assert kb.subjects[i].0 == Step(kb, current, input).subject;
      case None =>
    }
  }

  /** Greeting twice in a row gives the same answer and leaves no subject
      active both times. */
  lemma GreetingIdempotent(kb: KnowledgeBase, current: string, input: string)
    requires MentionsAny(Normalize(input), kb.greetings)
    ensures Step(kb, current, input).subject == ""
    ensures Step(kb, Step(kb, current, input).subject, input) == Step(kb, current, input)
  {
  }

  /** The substring matching is deliberately loose: "this" contains the
      greeting "hi", so it greets. */
  lemma ThisIsAGreeting(kb: KnowledgeBase, current: string)
    requires "hi" in kb.greetings
    ensures Step(kb, current, "this") == Turn(InitialGreeting(kb), "")
  {
    assert Lower("this") == "this";
    StripStable("this");
    assert Lower("hi") == "hi";
    StripStable("hi");
    assert OccursAt("hi", "this", 1);
  }

  /** With one of the built-in knowledge bases (the file could not be read)
      no subject is ever selected and every reply is one of its three texts. */
  lemma BuiltInKnowledgeStaysIdle(outcome: LoadOutcome, input: string)
    requires !outcome.Decoded?
    ensures var kb := Load(outcome);
            var t := Step(kb, "", input);
            t.subject == ""
            && (t.reply == InitialGreeting(kb) || t.reply == ResourcesReply(kb) || t.reply == FallbackText(kb))
  {
    var kb := Load(outcome);
    assert KeyList(kb.subjects) == "";
  }
}
