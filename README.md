# markov_slackbot in Dafny

A model of the logic of `markov_bot.rb`, a Slack bot that keeps one Markov
dictionary per speaker, one for the whole channel (the key `"us"`) and one per
static corpus file, and answers `imitate <name>` with generated text.

The Markov chain itself comes from the `marky_markov` library and is not part
of this model: a dictionary here is its kind (in memory, or backed by
`dictionaries/<name>.mmd`) plus the sequence of inputs it was trained on, in
order. The Slack service and the file system are parameters: the history
answers of a pass, the directory answer, the bot's id, the `static` listing
and the set of cache files that exist.

- `scrub.dfy`, module `Scrubbing`: `text.gsub(/<.*?>/, "")` as a recursive
  function, with the leftmost-match, lazy-close and no-line-break rules of the
  regular expression, and what it guarantees: no tag left, idempotence, text
  without `<` unchanged, line-by-line behaviour, tag removal.
- `pagination.dfy`, module `Pagination`: the `history` loop as a method that
  returns the requests it made and the messages it delivered, proved against
  the response sequence: request count, cursors, delivered messages and order.
- `store.dfy`, module `Store`: the pure steps — get-or-create (`||=`),
  training a key, the message filter, the directory map (`to_h`), routing one
  message and a whole pass, the `markov_response` lookup, `File.basename` and
  the static-file cache decision — and the lemmas about a learning pass.
- `bot.dfy`, module `Bot`: class `MarkovBot` with the memoised fields
  `@markovs` and `@users` (`None` is `nil`) and the commands and helpers that
  update them: `forget`, `markovs`, `users`, `markov_response`, `imitate`,
  `learn`, `learn_static_file`, `learn_static`.
- `wrappers.dfy`, module `Wrappers`: `Option`.

Behaviour that follows the code where a looser reading would differ:

- Pagination stops only on a failed answer or `has_more` false; a successful
  answer with `has_more` true whose `response_metadata` has no `next_cursor`
  sends the next request with a `nil` cursor (`nextCursor` is `None`).
- `imitate` without an argument looks up the `nil` key, which is never
  present, and posts the apology.
- `imitate` falls back to the apology only when the key is unknown; an empty
  generated text is truthy in Ruby and would be posted.
- Scrubbing keeps both spaces around a mention: `hello <@U2> world` becomes
  `hello  world`.
- A message with an empty text `""` is kept (only `nil` is filtered out).
- A failed directory answer is not cached, so during a pass with a failing
  directory every kept message asks the directory again.
- An author whose display name is `"us"` has each of their texts trained
  twice under the aggregate key.

## Model

| member | source | states |
|---|---|---|
| Scrubbing.CloseAt | markov_bot.rb:89 | the lazy `.*?>` closes at the first `>`, and only when no line break comes before it; otherwise every later `>` has a line break before it |
| Scrubbing.TagLength | markov_bot.rb:89 | a match starts only at `<`, ends with `>`, spans no line break, and exists exactly when the close is found |
| Scrubbing.Scrub | markov_bot.rb:89 | the scrubbed text is never longer than the input |
| Scrubbing.PlainKept | markov_bot.rb:89 | a text with no `<` is returned unchanged |
| Scrubbing.ScrubIsClean | markov_bot.rb:89 | no match is left in the output: every remaining `<` meets a line break or the end before any `>` |
| Scrubbing.CleanUnchanged | markov_bot.rb:89 | a text with no match in it is left as it is |
| Scrubbing.ScrubIdempotent | markov_bot.rb:89 | scrubbing twice gives the same text as scrubbing once |
| Scrubbing.PlainPrefixKept | markov_bot.rb:89 | text before the first `<` is copied through unchanged |
| Scrubbing.TagRemoved | markov_bot.rb:89 | a leading `<…>` with no `>` or line break inside is deleted and the rest scrubbed |
| Scrubbing.ScrubByLine | markov_bot.rb:89 | a tag never spans a line break: scrubbing `a\nb` is scrubbing `a` and `b` separately |
| Scrubbing.MentionRemoved | markov_bot.rb:89 | a mention `<@id>` is deleted while the text on both sides, spaces included, is kept |
| Pagination.FirstStop | markov_bot.rb:138-141 | the loop ends at the first answer that failed or has `has_more` false, and at no earlier one |
| Pagination.YieldAll | markov_bot.rb:139 | the page's messages are handed on after those already yielded, all of them and in their order |
| Pagination.History | markov_bot.rb:127-144 | one request per page up to and including the stopping answer, all for the channel with limit 1000; the first cursor is `nil`, each later one is the previous answer's `next_cursor`; the delivered messages are those of every successful page fetched, page by page, in order |
| Pagination.FetchesOnePerPage | markov_bot.rb:130-143 | N answers with `has_more` true and then a stopping answer give exactly N+1 requests, and the messages of all successful pages among them |
| Pagination.FailedFirstPage | markov_bot.rb:138 | a failed first answer gives exactly one request and no message |
| Pagination.PagesPrefix | markov_bot.rb:139 | messages of earlier pages stay delivered, ahead of the later pages' messages |
| Pagination.InPages | markov_bot.rb:139 | a message is among the pages' messages exactly when one of the pages holds it |
| Pagination.DeliveredFromFetchedPages | markov_bot.rb:138-141 | a message is delivered exactly when a successful page that was requested holds it; a failed page contributes nothing |
| Store.GetOrCreate | markov_bot.rb:83 | get-or-create adds the key with a blank in-memory dictionary only when absent and changes no existing entry |
| Store.Train | markov_bot.rb:91 | `parse_string` appends the text to that key's dictionary and changes no other key |
| Store.Kept | markov_bot.rb:86-87 | a message is kept exactly when it has a text and its author is not the bot |
| Store.KeptDistributes | markov_bot.rb:85-87 | filtering keeps history order: filtering two stretches of history is filtering their concatenation |
| Store.ToMapKeys | markov_bot.rb:118-120 | the directory map's keys are exactly the members' ids |
| Store.ToMapLaterWins | markov_bot.rb:118-120 | for an id listed more than once, the name of its last member wins |
| Store.UsersFrom | markov_bot.rb:113-124 | `users` hands back the cached map when there is one, and `{}` when the directory answer failed |
| Store.Resolve | markov_bot.rb:93 | an author resolves exactly when the message has a user id that the map holds, to that id's name |
| Store.TrainAll | markov_bot.rb:88-97 | a learning pass never removes a key |
| Store.RouteOne | markov_bot.rb:89-96 | one message touches `"us"` and its resolved author's key (created if absent) and nothing else, appending its scrubbed text to each |
| Store.TrainAllKeys | markov_bot.rb:83-97 | after a pass a key exists exactly when it existed before or some kept message's author resolved to it |
| Store.TrainAllPerKey | markov_bot.rb:88-97 | after a pass every key holds what it held before, followed by the scrubbed texts routed to it, in message order |
| Store.NothingRoutedYet | markov_bot.rb:93-96 | a key other than `"us"` that no author resolves to receives nothing, so a message with no author goes only to `"us"` |
| Store.OtherKeysUntouched | markov_bot.rb:88-97 | keys other than `"us"` and the resolved authors' names are left exactly as they were |
| Store.UsGetsEveryText | markov_bot.rb:91 | unless an author is named `"us"`, the aggregate key receives exactly the scrubbed texts of all kept messages, in order |
| Store.LearningAccumulates | markov_bot.rb:83-95 | a second pass adds to the dictionaries the first left: two passes are one pass over both histories |
| Store.Respond | markov_bot.rb:103-106 | the lookup is `nil` exactly when the key is missing or unknown, and otherwise asks that key's dictionary for 1 to 3 sentences |
| Store.ForgottenStoreIsSilent | markov_bot.rb:104 | with the store emptied by `forget` every lookup is `nil` |
| Store.BasenameIsLastComponent | markov_bot.rb:66 | the key is the part of the path after its last `/`: a suffix without `/` |
| Store.LoadOrBuild | markov_bot.rb:66-73 | the key's dictionary is always the one at `dictionaries/<name>`; it is trained on the file, and the cache file written, exactly when `dictionaries/<name>.mmd` did not exist |
| Store.SecondLoadSkipsTraining | markov_bot.rb:69-73 | once saved, learning the same file again loads the same dictionary without training and writes nothing |
| Store.LearnFilesEffect | markov_bot.rb:54-73 | after the static pass a key exists exactly when it existed before or is some file's base name; such a key is backed by `dictionaries/<name>`, every other key is unchanged, and cache files only grow |
| Store.LastFileWins | markov_bot.rb:54-73 | the last listed file with a given base name decides that key: it holds exactly the cache-aware dictionary `LoadOrBuild` gives for that file against the cache files present at its turn, whatever the key held before |
| Bot.MarkovBot.Markovs | markov_bot.rb:109-111 | `markovs` turns `nil` into `{}` and otherwise returns the store unchanged |
| Bot.MarkovBot.Forget | markov_bot.rb:26-30 | `forget` empties the store and clears the user cache |
| Bot.MarkovBot.Users | markov_bot.rb:113-125 | a cached map is returned without a request; otherwise one request is made and only a successful answer is cached |
| Bot.MarkovBot.MarkovResponse | markov_bot.rb:103-107 | the answer is the lookup on the store, and the store is unchanged |
| Bot.MarkovBot.Imitate | markov_bot.rb:32-42 | `me` stands for the sender's own name and a missing argument for the `nil` key; the reply is generated text when the lookup succeeds and the apology quoting the command otherwise |
| Bot.MarkovBot.LearnMessage | markov_bot.rb:88-97 | one kept message is trained under `"us"` and, when `users` resolves its author, under the author's name |
| Bot.MarkovBot.LearnMessages | markov_bot.rb:88-97 | the kept messages, in order, leave the store as `TrainAll` of them; the directory is asked once when it answers, for every message when it fails, never when cached |
| Bot.MarkovBot.Learn | markov_bot.rb:79-101 | a pass creates `"us"`, makes the history requests (all for `channel`, with limit 1000), and trains exactly the kept messages of the delivered history in order; the directory is asked once when it answers, for every kept message when it fails, never when cached |
| Bot.MarkovBot.LearnStaticFile | markov_bot.rb:62-77 | the file's base name is replaced by the cache-aware dictionary and nothing else changes |
| Bot.MarkovBot.LearnStatic | markov_bot.rb:51-60 | every listed file goes through `learn_static_file`, in listing order |

## Left out

- The Markov chain (`parse_string`, `parse_file`, `generate_n_sentences`, `save_dictionary!`, and loading an existing `.mmd` inside `Dictionary.new`): a library whose code is not part of this model; a dictionary is its kind and its training inputs, and generation is a request for a number of sentences.
- The Slack client (`conversations_history`, `users_list`, `client.say`, `client.self.id`): network I/O; answers and the bot id are parameters, requests are returned, messages posted back are not modelled.
- Threads, the `LEARNING` mutex, `Thread.abort_on_exception` and `join`: each learning pass is one sequential method, and the static files are learned one after another (they write distinct keys).
- `Random.rand(3)`: the roll is a parameter below 3.
- The logger, `ENV["SLACK_API_TOKEN"]`, `Dir.glob` and `File.exist?`: the `static` listing and the set of existing cache files are parameters.
- The `command` wiring, the `learn` command starting both passes in threads, and `MarkovBot.run`.
- Pagination.History: a history service that answers `has_more` forever makes the source loop forever; the model requires some answer in the sequence to stop the loop.
- Bot.MarkovBot.Learn: every directory request in one pass gets the same answer; a directory that fails and then recovers within a pass is not modelled.
- Answers without `response_metadata`, or a successful history answer without `messages`: the source raises `NoMethodError` on `nil` at markov_bot.rb:139 and :142, and `Thread.abort_on_exception` ends the process; the service always sends both fields on such answers, so `messages` is always a sequence and `nextCursor` only models a missing `next_cursor`.
- Store.Basename: the stripping of trailing `/` by `File.basename` is not modelled; `Dir.glob` never lists a path ending in `/`.
