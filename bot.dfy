/**
 * The bot's state and commands. `@markovs` and `@users` are memoised fields
 * that start as `nil`; `forget` sets both back to `nil`. The chat service and
 * the file system are parameters: the history answers of one pass, the
 * directory answer, the id the bot reads from its configuration or from the
 * service, the `static` listing and the set of cache files that exist.
 */
module Bot {
  import opened Wrappers
  import opened Scrubbing
  import opened Pagination
  import opened Store

  /** What `imitate` posts: generated text, or the apology. */
  datatype Reply = Say(generation: Generation) | Sorry(text: string)

  /** The apology `imitate` posts for a command it cannot answer. */
  function Apology(command: string): (r: string)
  {
    "Sorry, I don't understand `" + command + "`"
  }

  class MarkovBot {
    /** `@markovs`: `None` is `nil`. */
    var markovs: Option<Models>
    /** `@users`: the cached directory, `None` until a directory answer succeeded. */
    var users: Option<map<string, string>>

    constructor ()
      ensures markovs == None && users == None
    {
      markovs := None;
      users := None;
    }

    /** The models as the next `markovs` call will return them. */
    function Current(): (r: Models)
      reads this
    {
      markovs.GetOr(map[])
    }

    /** `markovs`: `@markovs ||= {}`. */
    method Markovs() returns (store: Models)
      modifies this
      ensures store == old(Current())
      ensures markovs == Some(store) && users == old(users)
    {
      if markovs.None? {
        markovs := Some(map[]);
      }
      store := markovs.value;
    }

    /** The `forget` command: both caches back to `nil`. */
    method Forget()
      modifies this
      ensures markovs == None && users == None
      ensures Current() == map[]
    {
      markovs := None;
      users := None;
    }

    /** `users`: the cached map, else one directory request; only a successful
        answer is cached, a failed one yields `{}` and is asked again next time. */
    method Users(directory: Directory) returns (u: map<string, string>, fetched: bool)
      modifies this
      ensures fetched <==> old(users).None?
      ensures u == UsersFrom(old(users), directory)
      ensures users == if old(users).None? && directory.ok then Some(u) else old(users)
      ensures markovs == old(markovs)
    {
      if users.Some? {
        return users.value, false;
      }
      fetched := true;
      if directory.ok {
        u := ToMap(directory.members);
        users := Some(u);
      } else {
        u := map[];
      }
    }

    /** `markov_response(user)`; `roll` is `Random.rand(3)`. */
    method MarkovResponse(key: Option<string>, roll: nat) returns (r: Option<Generation>)
      requires roll < 3
      modifies this
      ensures r == Respond(old(Current()), key, roll)
      ensures markovs == Some(old(Current())) && users == old(users)
    {
      var store := Markovs();
      if key.Some? && key.value in store {
        r := Some(Generation(store[key.value], roll + 1));
      } else {
        r := None;
      }
    }

    /** The `imitate` command: `me` means the sender's own name; `None` is a
        command without an argument (`match["expression"]` is `nil`). */
    method Imitate(expression: Option<string>, sender: string, command: string, roll: nat, directory: Directory)
      returns (reply: Reply)
      requires roll < 3
      modifies this
      ensures var known := UsersFrom(old(users), directory);
              var key := if expression == Some("me") then Resolve(known, Message(None, Some(sender))) else expression;
              && (reply.Sorry? <==> Respond(old(Current()), key, roll).None?)
              && (reply.Sorry? ==> reply.text == Apology(command))
              && (reply.Say? ==> Some(reply.generation) == Respond(old(Current()), key, roll))
      ensures markovs == Some(old(Current()))
      ensures users == if expression == Some("me") && old(users).None? && directory.ok
                       then Some(ToMap(directory.members)) else old(users)
    {
      var key: Option<string>;
      if expression == Some("me") {
        var u, _ := Users(directory);
        key := if sender in u then Some(u[sender]) else None;
      } else {
        key := expression;
      }
      var response := MarkovResponse(key, roll);
      if response.Some? {
        reply := Say(response.value);
      } else {
        reply := Sorry(Apology(command));
      }
    }

    /** The body of `learn`'s loop for one kept message: the scrubbed text is
        trained under `"us"`, then under the author's name when `users`
        resolves the author. */
    method LearnMessage(message: Message, directory: Directory) returns (fetched: bool)
      requires message.text.Some? && markovs.Some? && Us in markovs.value
      modifies this
      ensures markovs == Some(Route(old(markovs.value), UsersFrom(old(users), directory), message))
      ensures fetched <==> old(users).None?
      ensures users == if old(users).None? && directory.ok then Some(ToMap(directory.members)) else old(users)
    {
      var scrubbed := Scrub(message.text.value);
      var store := Markovs();
      markovs := Some(Train(store, Us, scrubbed));
      var u;
      u, fetched := Users(directory);
      var name := Resolve(u, message);
      if name.Some? {
        store := Markovs();
        store := GetOrCreate(store, name.value);
        markovs := Some(Train(store, name.value, scrubbed));
      }
    }

    /** `learn`'s `.each` over the kept messages, in order. The directory is
        asked for each message while no answer is cached. */
    method LearnMessages(kept: seq<Message>, directory: Directory) returns (directoryFetches: nat)
      requires AllText(kept) && markovs.Some? && Us in markovs.value
      modifies this
      ensures markovs == Some(TrainAll(old(markovs.value), UsersFrom(old(users), directory), kept))
      ensures users == if old(users).None? && directory.ok && kept != [] then Some(ToMap(directory.members)) else old(users)
      ensures directoryFetches == if old(users).Some? then 0 else if !directory.ok then |kept| else if kept == [] then 0 else 1
    {
      ghost var start := markovs.value;
      ghost var known := UsersFrom(users, directory);
      directoryFetches := 0;
      for i := 0 to |kept|
        invariant markovs == Some(TrainAll(start, known, kept[..i]))
        invariant users == if old(users).None? && directory.ok && i > 0 then Some(ToMap(directory.members)) else old(users)
        invariant directoryFetches == if old(users).Some? then 0 else if !directory.ok then i else if i == 0 then 0 else 1
      {
        ghost var prefix := kept[..i + 1];
        assert prefix[..i] == kept[..i] && prefix[i] == kept[i];
        assert kept[i] in kept;
        assert UsersFrom(users, directory) == known;
        assert TrainAll(start, known, prefix) == Route(TrainAll(start, known, kept[..i]), known, kept[i]);
        var fetched := LearnMessage(kept[i], directory);
        if fetched {
          directoryFetches := directoryFetches + 1;
        }
      }
      assert kept[..|kept|] == kept;
    }

    /** One live learning pass over a channel (`learn`): `"us"` is created
        first, the whole history is fetched, messages without text or from the
        bot are dropped, and the remaining messages are learned in order. */
    method Learn(channel: string, configUserId: Option<string>, selfId: string, responses: seq<Response>, directory: Directory)
      returns (requests: seq<Request>, directoryFetches: nat)
      requires Ends(responses)
      modifies this
      ensures |requests| == FetchCount(responses) && requests[0].cursor == None
      ensures forall k :: 0 <= k < |requests| ==> requests[k].channel == channel && requests[k].limit == PageLimit
      ensures forall k :: 0 < k < |requests| ==> requests[k].cursor == responses[k - 1].nextCursor
      ensures var kept := Kept(Delivered(responses), configUserId.GetOr(selfId));
              && AllText(kept)
              && markovs == Some(TrainAll(GetOrCreate(old(Current()), Us), UsersFrom(old(users), directory), kept))
              && users == (if old(users).None? && directory.ok && kept != [] then Some(ToMap(directory.members)) else old(users))
              && directoryFetches == (if old(users).Some? then 0 else if !directory.ok then |kept| else if kept == [] then 0 else 1)
    {
      var store := Markovs();
      markovs := Some(GetOrCreate(store, Us));
      var botId := configUserId.GetOr(selfId);
      var history;
      requests, history := History(channel, responses);
      var kept := Kept(history, botId);
      directoryFetches := LearnMessages(kept, directory);
    }

    /** `learn_static_file`: the file's base name is replaced by the dictionary
        at `dictionaries/<name>`, trained on the file and saved only when the
        cache file does not exist yet. */
    method LearnStaticFile(file: string, caches: set<string>) returns (cachesAfter: set<string>)
      modifies this
      ensures markovs == Some(old(Current())[Basename(file) := LoadOrBuild(file, caches).0])
      ensures cachesAfter == LoadOrBuild(file, caches).1
      ensures users == old(users)
    {
      var name := Basename(file);
      var dictionary := DictionaryPath(name);
      var store := Markovs();
      ghost var before := store;
      var loaded := Dictionary(OnDisk(dictionary), []);
      markovs := Some(store[name := loaded]);
      cachesAfter := caches;
      if CachePath(dictionary) !in caches {
        // `parse_file(file)` then `save_dictionary!`
        store := Markovs();
        var built := Dictionary(OnDisk(dictionary), [File(file)]);
        UpdateTwice(before, name, loaded, built);
        markovs := Some(store[name := built]);
        cachesAfter := caches + {CachePath(dictionary)};
      }
    }

    /** `learn_static`: every file of the `static` listing, one after another. */
    method LearnStatic(files: seq<string>, caches: set<string>) returns (cachesAfter: set<string>)
      modifies this
      ensures (Current(), cachesAfter) == LearnFiles(old(Current()), files, caches)
      ensures users == old(users)
    {
      cachesAfter := caches;
      for i := 0 to |files|
        invariant (Current(), cachesAfter) == LearnFiles(old(Current()), files[..i], caches)
        invariant users == old(users)
      {
        cachesAfter := LearnStaticFile(files[i], cachesAfter);
        assert files[..i + 1][..i] == files[..i];
      }
      assert files[..|files|] == files;
    }
  }
}
