/**
 * The keyed collection of Markov dictionaries and the pure steps that act on
 * it: get-or-create (`||=`), training a key on a text, routing one chat
 * message, the filter in front of routing, the user directory turned into a
 * map, the lookup behind `imitate`, and the static-file cache decision.
 *
 * A dictionary is abstract: the chain itself belongs to a library outside this
 * model, so a dictionary is where it came from plus the sequence of inputs it
 * was trained on, in order.
 */
module Store {
  import opened Wrappers
  import opened Scrubbing
  import opened Pagination

  /** One training input: a chat text (`parse_string`) or a whole file (`parse_file`). */
  datatype Source = Text(text: string) | File(path: string)

  /** `TemporaryDictionary.new`, or `Dictionary.new(path)` backed by `<path>.mmd`. */
  datatype Kind = Temporary | OnDisk(path: string)

  datatype Dictionary = Dictionary(kind: Kind, trained: seq<Source>)

  /** The `markovs` hash: model key to dictionary. */
  type Models = map<string, Dictionary>

  /** The aggregate key every channel message is trained under. */
  const Us: string := "us"

  /** An untrained in-memory dictionary. */
  function Blank(): (d: Dictionary)
  {
    Dictionary(Temporary, [])
  }

  /** What `key` holds, or a blank dictionary when it holds nothing yet. */
  function Entry(store: Models, key: string): (d: Dictionary)
  {
    if key in store then store[key] else Blank()
  }

  /** `markovs[key] ||= TemporaryDictionary.new`. */
  function GetOrCreate(store: Models, key: string): (r: Models)
    ensures r.Keys == store.Keys + {key}
    ensures r[key] == Entry(store, key)
    ensures forall k :: k in store ==> r[k] == store[k]
  {
    if key in store then store else store[key := Blank()]
  }

  /** `markovs[key].parse_string(text)`. */
  function Train(store: Models, key: string, text: string): (r: Models)
    requires key in store
    ensures r.Keys == store.Keys
    ensures r[key].kind == store[key].kind && r[key].trained == store[key].trained + [Text(text)]
    ensures forall k :: k in store && k != key ==> r[k] == store[k]
  {
    store[key := store[key].(trained := store[key].trained + [Text(text)])]
  }

  /** A second store under the same key replaces the first. */
  lemma UpdateTwice<K, V>(m: map<K, V>, k: K, a: V, b: V)
    ensures m[k := a][k := b] == m[k := b]
  {
  }

  // ---- filtering (`select` / `reject`) ----

  /** Kept for training: it has a text and was not written by the bot. */
  predicate Learnable(m: Message, botId: string)
  {
    m.text.Some? && m.user != Some(botId)
  }

  /** `history.select { |m| m["text"] }.reject { |m| m["user"] == bot_id }`. */
  function Kept(msgs: seq<Message>, botId: string): (r: seq<Message>)
    ensures forall m :: m in r <==> m in msgs && Learnable(m, botId)
    ensures |r| <= |msgs|
  {
    if msgs == [] then []
    else
      var init := Kept(msgs[..|msgs| - 1], botId);
      var m := msgs[|msgs| - 1];
      assert msgs == msgs[..|msgs| - 1] + [m];
      if Learnable(m, botId) then init + [m] else init
  }

  /** Filtering one more message: it is appended exactly when it is learnable. */
  lemma KeptSnoc(msgs: seq<Message>, m: Message, botId: string)
    ensures Kept(msgs + [m], botId) == if Learnable(m, botId) then Kept(msgs, botId) + [m] else Kept(msgs, botId)
  {
    assert (msgs + [m])[..|msgs|] == msgs;
  }

  /** Filtering keeps the history's order: filtering page by page is filtering
      the whole history. */
  lemma {:induction false} KeptDistributes(a: seq<Message>, b: seq<Message>, botId: string)
    ensures Kept(a + b, botId) == Kept(a, botId) + Kept(b, botId)
    decreases |b|
  {
    if b == [] {
      assert a + b == a;
    } else {
      var init := b[..|b| - 1];
      var m := b[|b| - 1];
      assert b == init + [m];
      assert a + b == (a + init) + [m];
      KeptDistributes(a, init, botId);
      KeptSnoc(a + init, m, botId);
      KeptSnoc(init, m, botId);
    }
  }

  /** Every message has a text to train on. */
  predicate AllText(msgs: seq<Message>)
  {
    forall m :: m in msgs ==> m.text.Some?
  }

  // ---- the user directory (`users`) ----

  /** A `users_list` member: id and display name. */
  datatype Member = Member(id: string, name: string)

  /** A `users_list` answer. */
  datatype Directory = Directory(ok: bool, members: seq<Member>)

  /** `members.map { |m| [m["id"], m["name"]] }.to_h`: pairs entered in order. */
  function ToMap(members: seq<Member>): (r: map<string, string>)
  {
    if members == [] then map[]
    else
      var last := members[|members| - 1];
      ToMap(members[..|members| - 1])[last.id := last.name]
  }

  /** The directory map has exactly the members' ids as keys. */
  lemma {:induction false} ToMapKeys(members: seq<Member>, id: string)
    ensures id in ToMap(members) <==> exists k :: 0 <= k < |members| && members[k].id == id
    decreases |members|
  {
    if members != [] {
      var init := members[..|members| - 1];
      ToMapKeys(init, id);
      if id in ToMap(init) {
        var k :| 0 <= k < |init| && init[k].id == id;
        assert members[k] == init[k];
      }
      if id != members[|members| - 1].id && exists k :: 0 <= k < |members| && members[k].id == id {
        var k :| 0 <= k < |members| && members[k].id == id;
        assert init[k] == members[k];
      }
    }
  }

  /** For an id listed more than once, the later member's name wins. */
  lemma {:induction false} ToMapLaterWins(members: seq<Member>, k: nat)
    requires k < |members| && LastWithId(members, k)
    ensures members[k].id in ToMap(members) && ToMap(members)[members[k].id] == members[k].name
    decreases |members|
  {
    var init := members[..|members| - 1];
    if k < |init| {
      assert members[|members| - 1].id != members[k].id;
      assert init[k] == members[k];
      assert LastWithId(init, k) by {
        forall j | k < j < |init| ensures init[j].id != init[k].id {
          assert init[j] == members[j];
        }
      }
      ToMapLaterWins(init, k);
    }
  }

  /** No later member of `members` has the id of `members[k]`. */
  predicate LastWithId(members: seq<Member>, k: nat)
    requires k < |members|
  {
    forall j :: k < j < |members| ==> members[j].id != members[k].id
  }

  /** The map a `users` call hands back: the cached one, a fresh one from a
      successful directory answer, or `{}` when the answer failed. */
  function UsersFrom(cache: Option<map<string, string>>, directory: Directory): (u: map<string, string>)
    ensures cache.Some? ==> u == cache.value
    ensures cache.None? && !directory.ok ==> u == map[]
    ensures cache.None? && directory.ok ==> u == ToMap(directory.members)
  {
    if cache.Some? then cache.value
    else if directory.ok then ToMap(directory.members)
    else map[]
  }

  /** `users[message["user"]]`: the author's name, when the author is known. */
  function Resolve(users: map<string, string>, m: Message): (r: Option<string>)
    ensures r.Some? <==> m.user.Some? && m.user.value in users
    ensures r.Some? ==> r.value == users[m.user.value]
  {
    if m.user.Some? && m.user.value in users then Some(users[m.user.value]) else None
  }

  // ---- routing (`learn`'s loop body) ----

  /** One message: its scrubbed text goes to `"us"`, and to its author's key
      (created when absent) when the author resolves. */
  function Route(store: Models, users: map<string, string>, m: Message): (r: Models)
    requires Us in store && m.text.Some?
  {
    var scrubbed := Scrub(m.text.value);
    var withUs := Train(store, Us, scrubbed);
    match Resolve(users, m)
    case None => withUs
    case Some(name) => Train(GetOrCreate(withUs, name), name, scrubbed)
  }

  /** Routing every message of `msgs`, in order. */
  function TrainAll(store: Models, users: map<string, string>, msgs: seq<Message>): (r: Models)
    requires Us in store && AllText(msgs)
    ensures store.Keys <= r.Keys
  {
    if msgs == [] then store
    else
      var init := msgs[..|msgs| - 1];
      assert forall m :: m in init ==> m in msgs;
      Route(TrainAll(store, users, init), users, msgs[|msgs| - 1])
  }

  /** What one message adds to `key`'s dictionary. */
  function Contribution(key: string, users: map<string, string>, m: Message): (r: seq<Source>)
    requires m.text.Some?
  {
    var t := Text(Scrub(m.text.value));
    (if key == Us then [t] else []) + (if Resolve(users, m) == Some(key) then [t] else [])
  }

  /** What the messages of `msgs` add to `key`'s dictionary, in order. */
  function RoutedTo(key: string, users: map<string, string>, msgs: seq<Message>): (r: seq<Source>)
    requires AllText(msgs)
  {
    if msgs == [] then []
    else
      var init := msgs[..|msgs| - 1];
      assert forall m :: m in init ==> m in msgs;
      RoutedTo(key, users, init) + Contribution(key, users, msgs[|msgs| - 1])
  }

  /** Some message of `msgs` resolves to `name`. */
  ghost predicate Names(users: map<string, string>, msgs: seq<Message>, name: string)
  {
    exists m :: m in msgs && Resolve(users, m) == Some(name)
  }

  /** Routing one message touches `"us"` and the author's key, appends the
      scrubbed text to each, and leaves every other key alone. */
  lemma RouteOne(store: Models, users: map<string, string>, m: Message, key: string)
    requires Us in store && m.text.Some?
    ensures key in Route(store, users, m) <==> key in store || Resolve(users, m) == Some(key)
    ensures key in Route(store, users, m) ==>
      Route(store, users, m)[key] == Dictionary(Entry(store, key).kind, Entry(store, key).trained + Contribution(key, users, m))
  {
  }

  /** A key exists after a learning pass exactly when it existed before or some
      author resolved to it. */
  lemma {:induction false} TrainAllKeys(store: Models, users: map<string, string>, msgs: seq<Message>, key: string)
    requires Us in store && AllText(msgs)
    ensures key in TrainAll(store, users, msgs) <==> key in store || Names(users, msgs, key)
    decreases |msgs|
  {
    if msgs == [] {
      assert !Names(users, msgs, key);
    } else {
      var init := msgs[..|msgs| - 1];
      var m := msgs[|msgs| - 1];
      assert forall x :: x in msgs <==> x in init || x == m;
      TrainAllKeys(store, users, init, key);
      RouteOne(TrainAll(store, users, init), users, m, key);
      assert Names(users, msgs, key) <==> Names(users, init, key) || Resolve(users, m) == Some(key);
    }
  }

  /** One routing step extends what `key` holds by the message's contribution. */
  lemma RouteExtends(mid: Models, users: map<string, string>, m: Message, key: string, before: Dictionary, routed: seq<Source>)
    requires Us in mid && m.text.Some?
    requires key in mid ==> mid[key] == Dictionary(before.kind, before.trained + routed)
    requires key !in mid ==> before == Blank() && routed == []
    requires key in Route(mid, users, m)
    ensures Route(mid, users, m)[key] == Dictionary(before.kind, before.trained + (routed + Contribution(key, users, m)))
  {
    RouteOne(mid, users, m, key);
    assert before.trained + routed + Contribution(key, users, m) == before.trained + (routed + Contribution(key, users, m));
  }

  /** After a learning pass every key holds what it held before (nothing, for a
      new key), followed by the scrubbed texts routed to it in message order. */
  lemma {:induction false} TrainAllPerKey(store: Models, users: map<string, string>, msgs: seq<Message>, key: string)
    requires Us in store && AllText(msgs)
    requires key in TrainAll(store, users, msgs)
    ensures TrainAll(store, users, msgs)[key] == Dictionary(Entry(store, key).kind, Entry(store, key).trained + RoutedTo(key, users, msgs))
    decreases |msgs|
  {
    if msgs != [] {
      var init := msgs[..|msgs| - 1];
      var m := msgs[|msgs| - 1];
      assert forall x :: x in init ==> x in msgs;
      var mid := TrainAll(store, users, init);
      if key in mid {
        TrainAllPerKey(store, users, init, key);
      } else {
        TrainAllKeys(store, users, init, key);
        NothingRoutedYet(users, init, key);
      }
      RouteExtends(mid, users, m, key, Entry(store, key), RoutedTo(key, users, init));
    }
  }

  /** A key nobody resolved to, other than `"us"`, receives nothing. */
  lemma {:induction false} NothingRoutedYet(users: map<string, string>, msgs: seq<Message>, key: string)
    requires AllText(msgs) && key != Us && !Names(users, msgs, key)
    ensures RoutedTo(key, users, msgs) == []
    decreases |msgs|
  {
    if msgs != [] {
      var init := msgs[..|msgs| - 1];
      assert forall x :: x in init ==> x in msgs;
      assert msgs[|msgs| - 1] in msgs;
      NothingRoutedYet(users, init, key);
    }
  }

  /** Keys other than `"us"` and the resolved authors' are left exactly as they were. */
  lemma OtherKeysUntouched(store: Models, users: map<string, string>, msgs: seq<Message>, key: string)
    requires Us in store && AllText(msgs)
    requires key != Us && !Names(users, msgs, key)
    ensures key in TrainAll(store, users, msgs) <==> key in store
    ensures key in store ==> TrainAll(store, users, msgs)[key] == store[key]
  {
    TrainAllKeys(store, users, msgs, key);
    if key in store {
      TrainAllPerKey(store, users, msgs, key);
      NothingRoutedYet(users, msgs, key);
    }
  }

  /** The scrubbed texts of `msgs`, in order. */
  function Scrubbed(msgs: seq<Message>): (r: seq<Source>)
    requires AllText(msgs)
  {
    if msgs == [] then []
    else
      var init := msgs[..|msgs| - 1];
      assert forall m :: m in init ==> m in msgs;
      Scrubbed(init) + [Text(Scrub(msgs[|msgs| - 1].text.value))]
  }

  /** Unless some author's name is itself `"us"`, the aggregate key receives
      exactly one scrubbed text per kept message, in message order. */
  lemma {:induction false} UsGetsEveryText(users: map<string, string>, msgs: seq<Message>)
    requires AllText(msgs) && !Names(users, msgs, Us)
    ensures RoutedTo(Us, users, msgs) == Scrubbed(msgs)
    decreases |msgs|
  {
    if msgs != [] {
      var init := msgs[..|msgs| - 1];
      assert forall x :: x in init ==> x in msgs;
      assert msgs[|msgs| - 1] in msgs;
      UsGetsEveryText(users, init);
    }
  }

  // ---- static files, all of them (`learn_static`) ----

  /** Every file of the `static` directory through `LoadOrBuild`, in listing order. */
  function LearnFiles(store: Models, files: seq<string>, caches: set<string>): (r: (Models, set<string>))
  {
    if files == [] then (store, caches)
    else
      var (s, c) := LearnFiles(store, files[..|files| - 1], caches);
      var file := files[|files| - 1];
      var (d, c') := LoadOrBuild(file, c);
      (s[Basename(file) := d], c')
  }

  /** After the static pass, each file's base name holds the dictionary backed
      by `dictionaries/<name>`, every other key is as it was, and the cache
      files only grew. */
  lemma {:induction false} LearnFilesEffect(store: Models, files: seq<string>, caches: set<string>, key: string)
    ensures var (s, c) := LearnFiles(store, files, caches);
      && caches <= c
      && (key in s <==> key in store || exists f :: f in files && Basename(f) == key)
      && ((exists f :: f in files && Basename(f) == key) ==> s[key].kind == OnDisk(DictionaryPath(key)))
      && ((forall f :: f in files ==> Basename(f) != key) ==> key in s ==> s[key] == store[key])
    decreases |files|
  {
    if files != [] {
      var init := files[..|files| - 1];
      var file := files[|files| - 1];
      LearnFilesEffect(store, init, caches, key);
      var (s0, c0) := LearnFiles(store, init, caches);
      var (d, c1) := LoadOrBuild(file, c0);
      assert LearnFiles(store, files, caches) == (s0[Basename(file) := d], c1);
      assert forall f :: f in files <==> f in init || f == file by {
        assert files == init + [file];
      }
      var named := exists f :: f in files && Basename(f) == key;
      var namedBefore := exists f :: f in init && Basename(f) == key;
      assert named <==> namedBefore || Basename(file) == key;
    }
  }

  /** `markovs[name] = …` is an assignment: the last listed file with a given
      base name decides that key, whatever it held before, and it holds what
      `LoadOrBuild` gives for that file against the cache files present when
      its turn came. */
  lemma {:induction false} LastFileWins(store: Models, files: seq<string>, caches: set<string>, j: nat)
    requires j < |files|
    requires forall k :: j < k < |files| ==> Basename(files[k]) != Basename(files[j])
    ensures Basename(files[j]) in LearnFiles(store, files, caches).0
    ensures LearnFiles(store, files, caches).0[Basename(files[j])]
         == LoadOrBuild(files[j], LearnFiles(store, files[..j], caches).1).0
    decreases |files|
  {
    var init := files[..|files| - 1];
    if j < |init| {
      LastFileWins(store, init, caches, j);
      assert init[..j] == files[..j];
      assert init[j] == files[j];
    }
  }

  /** Learning accumulates: a second pass over `b` after a pass over `a` is a
      single pass over `a + b`, not a rebuild. */
  lemma {:induction false} LearningAccumulates(store: Models, users: map<string, string>, a: seq<Message>, b: seq<Message>)
    requires Us in store && AllText(a) && AllText(b)
    ensures AllText(a + b)
    ensures TrainAll(TrainAll(store, users, a), users, b) == TrainAll(store, users, a + b)
    decreases |b|
  {
    if b == [] {
      assert a + b == a;
    } else {
      var init := b[..|b| - 1];
      assert forall x :: x in init ==> x in b;
      LearningAccumulates(store, users, a, init);
      assert (a + b)[..|a + b| - 1] == a + init;
      assert (a + b)[|a + b| - 1] == b[|b| - 1];
    }
  }

  // ---- lookup (`markov_response`) ----

  /** A generation request: the dictionary to generate from and how many sentences. */
  datatype Generation = Generation(dictionary: Dictionary, sentences: nat)

  /** `markov_response(user)`: nothing for an unknown (or missing) key, otherwise
      1 to 3 sentences from that key's dictionary; `roll` is `Random.rand(3)`. */
  function Respond(store: Models, key: Option<string>, roll: nat): (r: Option<Generation>)
    requires roll < 3
    ensures r.None? <==> key.None? || key.value !in store
    ensures r.Some? ==> r.value.dictionary == store[key.value] && 1 <= r.value.sentences <= 3
  {
    if key.Some? && key.value in store then Some(Generation(store[key.value], roll + 1)) else None
  }

  /** After `forget` nothing answers. */
  lemma ForgottenStoreIsSilent(key: Option<string>, roll: nat)
    requires roll < 3
    ensures Respond(map[], key, roll) == None
  {
  }

  // ---- static files (`learn_static_file`) ----

  /** `File.basename(file)`: what follows the last `/`. */
  function Basename(path: string): (name: string)
  {
    if path == [] || path[|path| - 1] == '/' then []
    else Basename(path[..|path| - 1]) + [path[|path| - 1]]
  }

  /** The base name is the last component of the path: a suffix with no `/`
      in it, preceded by a `/` unless it is the whole path. */
  lemma {:induction false} BasenameIsLastComponent(path: string)
    ensures '/' !in Basename(path)
    ensures |Basename(path)| <= |path|
    ensures Basename(path) == path[|path| - |Basename(path)|..]
    ensures |Basename(path)| < |path| ==> path[|path| - |Basename(path)| - 1] == '/'
    decreases |path|
  {
    if path != [] && path[|path| - 1] != '/' {
      var init := path[..|path| - 1];
      var c := path[|path| - 1];
      assert path == init + [c];
      BasenameIsLastComponent(init);
      var r := Basename(init);
      assert Basename(path) == r + [c];
      var start := |init| - |r|;
      assert path[start..] == init[start..] + [c];
      if start > 0 {
        assert path[start - 1] == init[start - 1];
      }
    }
  }

  /** `File.join("dictionaries", name)`. */
  function DictionaryPath(name: string): (path: string)
  {
    "dictionaries/" + name
  }

  /** The file a dictionary at `path` is saved to and loaded from. */
  function CachePath(path: string): (cache: string)
  {
    path + ".mmd"
  }

  /** The dictionary `learn_static_file` stores under the file's base name, and
      the cache files present afterwards: loaded from the cache when present,
      otherwise trained on the file and saved. */
  function LoadOrBuild(file: string, caches: set<string>): (r: (Dictionary, set<string>))
    ensures r.0.kind == OnDisk(DictionaryPath(Basename(file)))
    ensures r.0.trained == [] <==> CachePath(DictionaryPath(Basename(file))) in caches
    ensures r.0.trained != [] ==> r.0.trained == [File(file)]
    ensures r.1 == caches + {CachePath(DictionaryPath(Basename(file)))}
  {
    var path := DictionaryPath(Basename(file));
    if CachePath(path) in caches then (Dictionary(OnDisk(path), []), caches)
    else (Dictionary(OnDisk(path), [File(file)]), caches + {CachePath(path)})
  }

  /** The cache round trip: once a static file was built and saved, learning it
      again loads the same dictionary file without training, and writes nothing. */
  lemma SecondLoadSkipsTraining(file: string, caches: set<string>)
    ensures var (first, after) := LoadOrBuild(file, caches);
            var (second, after2) := LoadOrBuild(file, after);
            second.kind == first.kind && second.trained == [] && after2 == after
  {
  }
}
