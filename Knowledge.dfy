/** The knowledge base the bot answers from: subjects, their topics and
    the canned replies, as loaded from chatbot_data.json. JSON objects are
    ordered association lists (declaration order is the scan order). A key
    whose `.get` default is a fixed text is an Option, so that the default
    can be applied where the code applies it; a key whose default is empty
    ("" or a list or object) is a plain field that reads as empty. */
module Knowledge {

  datatype Option<T> = None | Some(value: T) {
    /** dict.get(key, default) */
    function GetOr(default: T): T {
      if Some? then value else default
    }
  }

  /** One topic: "description" and "link" (a missing link reads as ""). */
  datatype Topic = Topic(description: Option<string>, link: string)

  /** One subject: "aliases" (missing reads as []), "greeting" and "topics". */
  datatype Subject = Subject(aliases: seq<string>, greeting: Option<string>, topics: seq<(string, Topic)>)

  /** The whole file. A missing "greetings" or "subjects" reads as empty. */
  datatype KnowledgeBase = KnowledgeBase(
    initialGreeting: Option<string>,
    fallback: Option<string>,
    greetings: seq<string>,
    resources: Option<string>,
    subjects: seq<(string, Subject)>)

  /** The subject given to `subjects.get(key, {})` when the key is absent. */
  const EmptySubject := Subject([], None, [])

  /** Used when chatbot_data.json does not exist. */
  const MissingFileKnowledge := KnowledgeBase(
    Some("Hello! I'm StudyMate AI."),
    Some("Sorry, I couldn't understand that."),
    ["hi", "hello", "hey"],
    Some("No resources available."),
    [])

  /** Used when chatbot_data.json is not valid JSON. */
  const MalformedFileKnowledge := KnowledgeBase(
    Some("Hello! I'm StudyMate AI (data error)."),
    Some("Sorry, there was an error loading my knowledge base."),
    ["hi", "hello"],
    Some(""),
    [])

  /** Used on any other error while loading. */
  const UnexpectedErrorKnowledge := KnowledgeBase(
    Some("Hello! I'm StudyMate AI."),
    Some("Sorry, I couldn't understand that."),
    ["hi"],
    Some(""),
    [])

  /** What reading the knowledge file came to; the file system and the JSON
      decoder stay outside the model. */
  datatype LoadOutcome = FileMissing | Decoded(kb: KnowledgeBase) | DecodeError | OtherError

  /** load_bot_knowledge: the decoded file, or one of the built-in
      knowledge bases, so that the bot can always start. */
  function Load(outcome: LoadOutcome): (kb: KnowledgeBase)
    ensures outcome.Decoded? ==> kb == outcome.kb
    ensures !outcome.Decoded? ==> kb.subjects == [] && kb.initialGreeting.Some? && kb.fallback.Some?
    ensures !outcome.Decoded? ==> |kb.greetings| > 0 && "hi" in kb.greetings
  {
    match outcome
    case FileMissing => MissingFileKnowledge
    case Decoded(kb) => kb
    case DecodeError => MalformedFileKnowledge
    case OtherError => UnexpectedErrorKnowledge
  }

  /** `key` is one of the keys of the association list. */
  predicate IsKey<T>(entries: seq<(string, T)>, key: string) {
    exists i :: 0 <= i < |entries| && entries[i].0 == key
  }

  /** No two entries share a key, as in an object decoded from JSON. */
  predicate UniqueKeys<T>(entries: seq<(string, T)>) {
    forall i, j :: 0 <= i < j < |entries| ==> entries[i].0 != entries[j].0
  }

  /** dict.get(key): the value of the first entry with that key. */
  function Lookup<T>(entries: seq<(string, T)>, key: string): (r: Option<T>)
    ensures r.None? <==> !IsKey(entries, key)
    ensures r.Some? ==> exists i :: 0 <= i < |entries| && entries[i] == (key, r.value)
  {
    if entries == [] then None
    else if entries[0].0 == key then Some(entries[0].1)
    else
      var r := Lookup(entries[1..], key);
      assert r.Some? ==> exists i :: 0 <= i < |entries[1..]| && entries[1..][i] == (key, r.value);
      assert IsKey(entries, key) ==> IsKey(entries[1..], key) by {
        if IsKey(entries, key) {
          var i :| 0 <= i < |entries| && entries[i].0 == key;
          assert entries[1..][i - 1].0 == key;
        }
      }
      r
  }

  /** With unique keys, dict.get(key) finds the value of the one entry that
      has the key, whichever entry that is. */
  lemma LookupUnique<T>(entries: seq<(string, T)>, i: nat)
    requires UniqueKeys(entries) && i < |entries|
    ensures Lookup(entries, entries[i].0) == Some(entries[i].1)
  {
    var key := entries[i].0;
    var r := Lookup(entries, key);
    var j :| 0 <= j < |entries| && entries[j] == (key, r.value);
    assert j == i;
  }
}
