# StudyMate chatbot: response selection, in Dafny

StudyMate (`projectchatbot2.0/chatbot.py`) is a desktop study assistant.
It loads a knowledge base of subjects, topics and canned replies. For each
line the user types, it picks a reply with a fixed priority of substring
rules. The only state it keeps between turns is the active subject. This
project models that core and proves what it promises.

- `Strings.dfy`: the Python string operations the matching depends on.
  These are `str.lower`, `str.title`, `str.strip` (with the full
  `str.isspace` table), `in` on strings, `startswith` and `join`. It also
  holds `normalize_text`.
- `Knowledge.dfy`: the knowledge base as datatypes. JSON objects become
  association lists in declaration order. A key whose `.get` default is a
  fixed text becomes an `Option`: `initial_greeting`, `fallback`,
  `resources`, `description` and `greeting`. `Conversation` fills in
  those defaults. The other keys (`greetings`, `subjects`, `aliases`,
  `topics` and `link`) are plain fields. A missing one reads as empty,
  as `.get` with an empty default does, and a missing subject reads as
  `EmptySubject`. The file also has the three
  built-in knowledge bases `load_bot_knowledge` falls back on, and `Load`
  over the outcome of reading the file.
- `Conversation.dfy`:
  - `Step` is the specification of one turn of `get_bot_response`. It
    maps the active subject and an input to a reply and the next active
    subject.
  - The class `Engine` holds the global `current_subject`. Its `Respond`
    method is proved equal to `Step`, and it keeps the subject either ""
    or a subject key.
  - The scanning loops are methods with invariants: the greeting and
    alias `any(...)`, `find_partial_match`, the topic loop and the subject
    loop.
  - Lemmas state each rule of the priority order.
- `Links.dfy`: how `send_message` cuts a reply into plain text and
  clickable links. It models Python's `replace`, `split` and `find`, the
  segmentation loop as a method, and the inserts as a function. Lemmas
  prove that every link starts with a scheme and holds no blank. They also
  prove that the inserts spell out the reply plus a newline whenever the
  reply does not itself contain `|||`.
- `Session.dfy`: the chat window's state without its widgets. It holds
  the transcript and the bot. `Send` ignores blank lines and otherwise
  appends the user's line and the bot's reply. `Clear` goes back to the
  greeting with no subject.

The built-in knowledge base depends on the error. A missing file gives
the greetings `hi`, `hello` and `hey` (chatbot.py:22). A decode error
gives `hi` and `hello` (:36). Any other error gives `hi` alone (:45).
Any decoded file is accepted, whatever keys it holds. A missing key takes
its `.get` default where it is read.

## Model

| member | source | states |
|---|---|---|
| Strings.TitleAt | projectchatbot2.0/chatbot.py:252 | `str.title` keeps the length. It upper-cases a character that starts a word (the first one, or one after an uncased character) and lower-cases the others. |
| Strings.TitleEmpty | projectchatbot2.0/chatbot.py:252 | A title-cased key is empty exactly when the key is empty. |
| Strings.TitleFromAt | projectchatbot2.0/chatbot.py:252 | The per-position characterisation of title-casing, for a scan that starts after a cased or an uncased character. |
| Strings.StripSpec | projectchatbot2.0/chatbot.py:207 | `strip()` removes only whitespace, from both ends. What remains neither starts nor ends with whitespace. |
| Strings.LeadingSpacesSpec | projectchatbot2.0/chatbot.py:207 | The characters `lstrip` removes are exactly the leading whitespace. |
| Strings.TrailingSpacesSpec | projectchatbot2.0/chatbot.py:207 | The characters `rstrip` removes are exactly the trailing whitespace. |
| Strings.LowerStrip | projectchatbot2.0/chatbot.py:206-208 | Lower-casing and stripping commute. |
| Strings.NormalizeIdempotent | projectchatbot2.0/chatbot.py:206-208 | `normalize_text` is idempotent. |
| Strings.StripStable | projectchatbot2.0/chatbot.py:207 | A string that neither starts nor ends with whitespace is unchanged by `strip()`. |
| Strings.EmptyIsSubstring | projectchatbot2.0/chatbot.py:215 | The empty string is `in` every string. So an empty or all-blank key always matches. |
| Strings.JoinNonEmpty | projectchatbot2.0/chatbot.py:252 | A join whose first part is non-empty is non-empty and starts with that part. |
| Knowledge.Load | projectchatbot2.0/chatbot.py:10-48 | A decoded file is used as is. When the file is missing, malformed or unreadable, a built-in knowledge base with no subjects, an initial greeting, a fallback and the greeting `hi` is used instead. |
| Knowledge.Lookup | projectchatbot2.0/chatbot.py:236 | `subjects.get(key)` finds nothing exactly when the key is absent. Otherwise it returns a value stored under that key. |
| Knowledge.LookupUnique | projectchatbot2.0/chatbot.py:236 | When no two entries share a key, as in a decoded JSON object, `subjects.get(key)` returns the value of the one entry with that key. |
| Conversation.FirstTopic | projectchatbot2.0/chatbot.py:240-249 | Finds the first topic, in declaration order, whose normalised key is in the text. No earlier topic matches. With no result, no topic matches. |
| Conversation.FirstSubject | projectchatbot2.0/chatbot.py:260-271 | Finds the first subject, in declaration order, mentioned by its key or one of its aliases. No earlier subject is mentioned. With no result, none is. |
| Conversation.FirstSubjectAt | projectchatbot2.0/chatbot.py:260-271 | A mentioned subject preceded only by unmentioned ones is the one selected. |
| Conversation.FirstSubjectNone | projectchatbot2.0/chatbot.py:260-271 | When no subject is mentioned, the scan finds none. |
| Conversation.ScanMentions | projectchatbot2.0/chatbot.py:224 | The `any(normalize_text(k) in text ...)` loop returns true exactly when some key is mentioned. |
| Conversation.PartialMatch | projectchatbot2.0/chatbot.py:210-216 | `find_partial_match` is true exactly when a keyword's normalised form is in the normalised text. |
| Conversation.PartialMatchOnNormalized | projectchatbot2.0/chatbot.py:211 | Normalising already-normalised text in `find_partial_match` does not change the result. |
| Conversation.Engine.constructor | projectchatbot2.0/chatbot.py:203 | The bot starts with no active subject. |
| Conversation.Engine.Respond | projectchatbot2.0/chatbot.py:218-279 | The reply and the new active subject are those of `Step`, and the subject stays "" or a subject key. |
| Conversation.Engine.AnswerWithinSubject | projectchatbot2.0/chatbot.py:234-256 | With a subject active, the topic loop returns the first matching topic's reply. Otherwise it returns the topic prompt or the subject's greeting. |
| Conversation.Engine.SelectSubject | projectchatbot2.0/chatbot.py:259-279 | With no subject active, the subject loop selects the first subject mentioned and answers with its greeting. Otherwise it answers with the fallback and selects nothing. |
| Conversation.GreetingResets | projectchatbot2.0/chatbot.py:223-226 | A greeting anywhere in the input clears the subject and answers with the initial greeting, whatever the state. |
| Conversation.GreetingIdempotent | projectchatbot2.0/chatbot.py:223-226 | Greeting again gives the same turn. |
| Conversation.ThisIsAGreeting | projectchatbot2.0/chatbot.py:224 | Matching is by substring, so `this` greets whenever `hi` is a greeting. |
| Conversation.ResourceKeywordsNormalized | projectchatbot2.0/chatbot.py:229 | Every fixed resource keyword is already normalised. |
| Conversation.ResourceKeywordWins | projectchatbot2.0/chatbot.py:229-231 | Without a greeting, any resource keyword in the input answers with the resources text and keeps the active subject. |
| Conversation.TopicFirstMatch | projectchatbot2.0/chatbot.py:240-249 | With a subject active, the first mentioned topic answers with its description. `Here's a great video/playlist: ` and the link follow when the link is non-empty. The subject stays. |
| Conversation.KeyListEmpty | projectchatbot2.0/chatbot.py:252-253 | The comma-joined, title-cased key list is empty exactly when there are no keys, provided no key is mentioned in the text. |
| Conversation.UnmentionedKeyNonEmpty | projectchatbot2.0/chatbot.py:242 | A key that the text does not mention is non-empty, and so is its title. |
| Conversation.UnmatchedTopicPrompts | projectchatbot2.0/chatbot.py:252-256 | With a subject active and no topic mentioned, the reply prompts with the topic names. With no topics, it is the subject's greeting or `What about <Subject> would you like to know?`. The subject stays. |
| Conversation.SubjectFirstMatch | projectchatbot2.0/chatbot.py:259-271 | With no subject active, the first subject mentioned by key or alias becomes active and answers with its greeting or `Great! Let's study <Subject>.`. |
| Conversation.AliasSelectsLikeKey | projectchatbot2.0/chatbot.py:266-270 | Naming a subject by an alias selects it exactly as naming it by its key does. |
| Conversation.FallbackWhenNothingMatches | projectchatbot2.0/chatbot.py:273-279 | With no subject active and nothing mentioned, the reply is the fallback. `Available subjects: ` and the names follow when there are subjects. No subject is selected. |
| Conversation.ActiveSubjectPersists | projectchatbot2.0/chatbot.py:233-256 | While a subject is active only a greeting leaves it. The reply is the greeting, the resources text or a within-subject answer. |
| Conversation.SubjectTransitions | projectchatbot2.0/chatbot.py:218-279 | The active subject is always "" or a key. It changes only to "" on a greeting, or from "" to a subject the input mentions. |
| Conversation.BuiltInKnowledgeStaysIdle | projectchatbot2.0/chatbot.py:17-48 | With a built-in knowledge base no subject is ever selected. Every reply is its greeting, its resources text or its fallback. |
| Links.Split | projectchatbot2.0/chatbot.py:356 | `split` always yields at least one part. |
| Links.Find | projectchatbot2.0/chatbot.py:363 | `find` returns the first index of the character, or -1 exactly when it is absent. |
| Links.UrlLength | projectchatbot2.0/chatbot.py:361-365 | The URL ends at the first space, newline or tab, or at the end of the part. |
| Links.UrlEnd | projectchatbot2.0/chatbot.py:361-365 | The loop over the three terminators computes that end. |
| Links.SegmentReply | projectchatbot2.0/chatbot.py:354-387 | The segmentation loop produces the inserts of `Segments`. |
| Links.FlattenPartSegments | projectchatbot2.0/chatbot.py:358-382 | A part's URL and rest spell out the part. |
| Links.FlattenSegmentsOf | projectchatbot2.0/chatbot.py:358-382 | The inserts for the parts spell out their concatenation. |
| Links.ConcatIsJoin | projectchatbot2.0/chatbot.py:356 | The concatenation of the parts is `"".join` of them, the same join that lists topics and subjects. |
| Links.SplitUnmark | projectchatbot2.0/chatbot.py:356 | Splitting at the triple-bar marker and concatenating removes the separators. |
| Links.UnmarkInsert | projectchatbot2.0/chatbot.py:356 | A separator inserted anywhere disappears again once the separators are removed. |
| Links.ReplaceUnmark | projectchatbot2.0/chatbot.py:356 | Marking every scheme and then removing the separators restores the text. |
| Links.UnmarkClean | projectchatbot2.0/chatbot.py:356 | Text without the triple-bar marker has no separators to remove. |
| Links.PartsRoundTrip | projectchatbot2.0/chatbot.py:356 | The parts of a reply without the triple-bar marker concatenate back to the reply. |
| Links.SegmentsRoundTrip | projectchatbot2.0/chatbot.py:354-387 | For a reply without the triple-bar marker, the transcript receives the reply followed by one newline, whether or not it holds links. |
| Links.PartLinksWellFormed | projectchatbot2.0/chatbot.py:359-368 | A URL cut from a part that starts with a scheme still starts with it and holds no space, newline or tab. |
| Links.SegmentsLinksWellFormed | projectchatbot2.0/chatbot.py:354-384 | Every link inserted for a reply starts with `http://` or `https://` and holds no space, newline or tab. |
| Session.ExchangeShowsReply | projectchatbot2.0/chatbot.py:347-387 | For a reply without the triple-bar marker, one exchange adds the user line, the bot's prefix and the reply followed by a newline. |
| Session.ChatSession.constructor | projectchatbot2.0/chatbot.py:322-328 | The transcript starts as the saved history, or else as the greeting line. No subject is active. |
| Session.ChatSession.Send | projectchatbot2.0/chatbot.py:341-387 | A blank line changes nothing. Otherwise the stripped line is answered as by `Step`, and the exchange is appended to the transcript. |
| Session.ChatSession.Clear | projectchatbot2.0/chatbot.py:157-172 | The transcript becomes the greeting line and no subject is active. |

## Left out

- The tkinter window is not modelled: widgets, tags, colours, scrolling, the input box and the click handlers. The same goes for `webbrowser` and the `hash`-based tag names. The model keeps the text written to the chat box and which parts of it are links.
- Files are not modelled: `save_chat_history`, `load_chat_history`, `export_chat_to_file`, `on_close` and the removal of the history file. The saved history is a parameter of the session's constructor.
- `load_bot_knowledge` reads and decodes the file. The file system and the JSON decoder are outside the model: `Load` takes the outcome of reading, and the printed warnings are dropped.
- JSON values of the wrong type are not modelled, for example `greetings` given as a string. Objects are association lists. Decoded JSON objects have unique keys, which `UniqueKeys` states. `Lookup` returns the first entry, and `LookupUnique` shows that this is the key's only value when the keys are unique.
- `BOT_KNOWLEDGE_OLD` (lines 51-137) is dead data that nothing reads.
- Strings.Lower: lower-cases ASCII letters only. Python's `str.lower` also maps non-ASCII letters.
- Strings.Title: title-cases over ASCII letters only. Python's `str.title` uses Unicode cased characters and title case.
- The trailing newline that the text widget adds when its contents are read is not modelled. It matters only when saving.
