/** Regrouping the messages of one transaction (voteit/messaging/utils.py). */
module Collapse {
  import opened Collections

  // ------------------------------------------------------------- data model

  /** What a payload does to the objects it is about: a client that folds messages stores or
      forgets each of them. */
  datatype Change = Upsert(version: int) | Delete

  type Object = int

  datatype Message = Message(action: string, payload: map<Object, Change>)

  /** Where a message is going: a channel-layer group or a single consumer. */
  datatype Target = Target(name: string, group: bool, layer: string)

  datatype Post = Post(message: Message, target: Target)

  datatype Key = Key(action: string, target: Target)

  /** What leaves on commit: a message as it was, or several as one `<action>.batch`. */
  datatype Sent =
    | One(post: Post)
    | Many(action: string, payloads: seq<map<Object, Change>>, target: Target)

  function KeyOf(p: Post): Key {
    Key(p.message.action, p.target)
  }

  // ----------------------------------------------------- the regrouping, stated

  /** The keys of `data`, in order of first occurrence. */
  function Keys(data: seq<Post>): seq<Key> {
    if data == [] then [] else
      var before, key := Keys(data[..|data| - 1]), KeyOf(data[|data| - 1]);
      if key in before then before else before + [key]
  }

  /** The posts of one group, in order. */
  function Group(data: seq<Post>, key: Key): seq<Post> {
    if data == [] then [] else
      Group(data[..|data| - 1], key) + if KeyOf(data[|data| - 1]) == key then [data[|data| - 1]] else []
  }

  function MessagesOf(posts: seq<Post>): seq<Message> {
    seq(|posts|, k requires 0 <= k < |posts| => posts[k].message)
  }

  function Payloads(messages: seq<Message>): seq<map<Object, Change>> {
    seq(|messages|, k requires 0 <= k < |messages| => messages[k].payload)
  }

  function Singly(messages: seq<Message>, target: Target): seq<Sent> {
    seq(|messages|, k requires 0 <= k < |messages| => One(Post(messages[k], target)))
  }

  function Emit(messages: seq<Message>, key: Key, threshold: int, batchable: set<string>): seq<Sent> {
    if |messages| >= threshold && key.action in batchable
    then [Many(key.action, Payloads(messages), key.target)]
    else Singly(messages, key.target)
  }

  function EmitAll(keys: seq<Key>, data: seq<Post>, threshold: int, batchable: set<string>): seq<Sent> {
    if keys == [] then [] else
      var key := keys[|keys| - 1];
      EmitAll(keys[..|keys| - 1], data, threshold, batchable) +
      Emit(MessagesOf(Group(data, key)), key, threshold, batchable)
  }

  function Collapsed(data: seq<Post>, threshold: int, batchable: set<string>): seq<Sent> {
    EmitAll(Keys(data), data, threshold, batchable)
  }

  // ------------------------------------------------------------- the algorithm

  lemma {:induction false} KeysAreThoseUsed(data: seq<Post>, key: Key)
    ensures key in Keys(data) <==> Group(data, key) != []
  {
    if data != [] {
      KeysAreThoseUsed(data[..|data| - 1], key);
    }
  }

  lemma MessagesOfSnoc(posts: seq<Post>, p: Post)
    ensures MessagesOf(posts + [p]) == MessagesOf(posts) + [p.message]
  {
  }

  /** Groups the collected posts by action and target and turns every group that is large
      enough, and of a kind that has a batch message, into one. */
  method CollapsePosts(data: seq<Post>, threshold: int, batchable: set<string>) returns (result: seq<Sent>)
    ensures result == Collapsed(data, threshold, batchable)
  {
    var grouped: map<Key, seq<Message>> := map[];
    var order: seq<Key> := [];
    for i := 0 to |data|
      invariant order == Keys(data[..i])
      invariant forall key :: key in grouped <==> key in order
      invariant forall key :: key in grouped ==> grouped[key] == MessagesOf(Group(data[..i], key))
    {
      var message, target := data[i].message, data[i].target;
      var key := Key(message.action, target);
      assert data[..i + 1][..i] == data[..i];
      if key !in grouped {
        KeysAreThoseUsed(data[..i], key);
        order := order + [key];
        grouped := grouped[key := []];
      }
      MessagesOfSnoc(Group(data[..i], key), data[i]);
      grouped := grouped[key := grouped[key] + [message]];
    }
    assert data[..|data|] == data;
    result := [];
    for i := 0 to |order|
      invariant result == EmitAll(order[..i], data, threshold, batchable)
    {
      var key := order[i];
      assert order[..i + 1][..i] == order[..i];
      assert key in order;
      var messages := grouped[key];
      if |messages| >= threshold && key.action in batchable {
        result := result + [Many(key.action, Payloads(messages), key.target)];
      } else {
        result := result + Singly(messages, key.target);
      }
    }
    assert order[..|order|] == order;
  }

  // --------------------------------------------- nothing lost, order in each group

  /** The posts a receiver gets out of what was sent: a batch counts as its items. */
  function Unbatch(s: Sent): seq<Post> {
    match s
    case One(p) => [p]
    case Many(action, payloads, target) =>
      seq(|payloads|, k requires 0 <= k < |payloads| => Post(Message(action, payloads[k]), target))
  }

  function Delivered(sent: seq<Sent>): seq<Post> {
    if sent == [] then [] else Delivered(sent[..|sent| - 1]) + Unbatch(sent[|sent| - 1])
  }

  /** The groups one after the other. */
  function Grouped(keys: seq<Key>, data: seq<Post>): seq<Post> {
    if keys == [] then [] else Grouped(keys[..|keys| - 1], data) + Group(data, keys[|keys| - 1])
  }

  lemma {:induction false} DeliveredAppend(a: seq<Sent>, b: seq<Sent>)
    ensures Delivered(a + b) == Delivered(a) + Delivered(b)
  {
    hide Unbatch;
    if b == [] {
      assert a + b == a;
    } else {
      var init, last := b[..|b| - 1], b[|b| - 1];
      assert (a + b)[..|a + b| - 1] == a + init && (a + b)[|a + b| - 1] == last;
      DeliveredAppend(a, init);
      assert (Delivered(a) + Delivered(init)) + Unbatch(last) == Delivered(a) + (Delivered(init) + Unbatch(last));
    }
  }

  lemma {:induction false} GroupHasKey(data: seq<Post>, key: Key)
    ensures forall p <- Group(data, key) :: KeyOf(p) == key && p in data
  {
    if data != [] {
      GroupHasKey(data[..|data| - 1], key);
    }
  }

  lemma {:induction false} SinglyDelivers(posts: seq<Post>, target: Target)
    requires forall p <- posts :: p.target == target
    ensures Delivered(Singly(MessagesOf(posts), target)) == posts
  {
    var sent := Singly(MessagesOf(posts), target);
    if posts != [] {
      var init := posts[..|posts| - 1];
      SinglyDelivers(init, target);
      assert sent[..|sent| - 1] == Singly(MessagesOf(init), target);
      assert posts == init + [posts[|posts| - 1]];
    }
  }

  lemma EmitDelivers(posts: seq<Post>, key: Key, threshold: int, batchable: set<string>)
    requires forall p <- posts :: KeyOf(p) == key
    ensures Delivered(Emit(MessagesOf(posts), key, threshold, batchable)) == posts
  {
    var messages := MessagesOf(posts);
    if |messages| >= threshold && key.action in batchable {
      var s := Many(key.action, Payloads(messages), key.target);
      assert [s][..0] == [];
      forall k | 0 <= k < |posts| ensures Unbatch(s)[k] == posts[k] {
        assert KeyOf(posts[k]) == key;
      }
      assert Unbatch(s) == posts;
    } else {
      SinglyDelivers(posts, key.target);
    }
  }

  /** Whatever the threshold and whichever actions can be batched, what arrives is the same:
      the groups one after the other, in order of their first post. */
  lemma {:induction false} CollapseDelivers(keys: seq<Key>, data: seq<Post>, threshold: int, batchable: set<string>)
    ensures Delivered(EmitAll(keys, data, threshold, batchable)) == Grouped(keys, data)
  {
    hide Emit;
    if keys != [] {
      var init, key := keys[..|keys| - 1], keys[|keys| - 1];
      CollapseDelivers(init, data, threshold, batchable);
      GroupHasKey(data, key);
      EmitDelivers(Group(data, key), key, threshold, batchable);
      DeliveredAppend(EmitAll(init, data, threshold, batchable),
                      Emit(MessagesOf(Group(data, key)), key, threshold, batchable));
    }
  }

  predicate Distinct(keys: seq<Key>) {
    forall i, j :: 0 <= i < j < |keys| ==> keys[i] != keys[j]
  }

  lemma {:induction false} KeysAreDistinct(data: seq<Post>)
    ensures Distinct(Keys(data))
  {
    if data != [] {
      KeysAreDistinct(data[..|data| - 1]);
    }
  }

  lemma {:induction false} GroupAppend(a: seq<Post>, b: seq<Post>, key: Key)
    ensures Group(a + b, key) == Group(a, key) + Group(b, key)
  {
    if b == [] {
      assert a + b == a;
    } else {
      assert (a + b)[..|a + b| - 1] == a + b[..|b| - 1];
      GroupAppend(a, b[..|b| - 1], key);
    }
  }

  lemma {:induction false} GroupOfGroup(posts: seq<Post>, key: Key, other: Key)
    requires forall p <- posts :: KeyOf(p) == key
    ensures Group(posts, other) == if other == key then posts else []
  {
    if posts != [] {
      var init := posts[..|posts| - 1];
      assert posts == init + [posts[|posts| - 1]];
      assert posts[|posts| - 1] in posts;
      GroupOfGroup(init, key, other);
    }
  }

  lemma EmptyGroup(key: Key)
    ensures Group([], key) == []
  {
  }

  lemma {:induction false} GroupOfGrouped(keys: seq<Key>, data: seq<Post>, key: Key)
    requires Distinct(keys)
    ensures Group(Grouped(keys, data), key) == if key in keys then Group(data, key) else []
  {
    hide Group;
    if keys == [] {
      EmptyGroup(key);
    } else {
      var init, last := keys[..|keys| - 1], keys[|keys| - 1];
      GroupOfGrouped(init, data, key);
      GroupHasKey(data, last);
      GroupAppend(Grouped(init, data), Group(data, last), key);
      GroupOfGroup(Group(data, last), last, key);
      assert keys == init + [last];
      assert key in keys <==> key in init || key == last;
    }
  }

  /** For every action and target, exactly the posted messages arrive, in the posted order. */
  lemma CollapseKeepsGroups(data: seq<Post>, threshold: int, batchable: set<string>, key: Key)
    ensures Group(Delivered(Collapsed(data, threshold, batchable)), key) == Group(data, key)
  {
    hide Keys, Delivered, EmitAll, Group, Grouped;
    CollapseDelivers(Keys(data), data, threshold, batchable);
    KeysAreDistinct(data);
    GroupOfGrouped(Keys(data), data, key);
    KeysAreThoseUsed(data, key);
  }

  /** The place of the first post of a group. */
  function Opened(data: seq<Post>, key: Key): (i: nat)
    ensures i <= |data|
  {
    if data == [] then 0
    else if Opened(data[..|data| - 1], key) < |data| - 1 then Opened(data[..|data| - 1], key)
    else if KeyOf(data[|data| - 1]) == key then |data| - 1 else |data|
  }

  /** Groups are sent in the order in which they were opened. */
  lemma {:induction false} GroupsInOrder(data: seq<Post>)
    ensures forall i, j :: 0 <= i < j < |Keys(data)| ==> Opened(data, Keys(data)[i]) < Opened(data, Keys(data)[j])
    ensures forall key :: key in Keys(data) <==> Opened(data, key) < |data|
  {
    if data != [] {
      var init := data[..|data| - 1];
      GroupsInOrder(init);
      assert forall key :: key in Keys(init) ==> Opened(data, key) == Opened(init, key);
      assert forall i :: 0 <= i < |Keys(init)| ==> Keys(init)[i] in Keys(init) && Keys(data)[i] == Keys(init)[i];
    }
  }

  /** Whether something may be sent: a message as it is when its group is small or has no batch
      message, and otherwise the whole group at once, in order. */
  predicate RightlySent(s: Sent, data: seq<Post>, threshold: int, batchable: set<string>) {
    match s
    case One(p) => p in data && (|Group(data, KeyOf(p))| < threshold || p.message.action !in batchable)
    case Many(action, payloads, target) =>
      var group := Group(data, Key(action, target));
      && action in batchable && threshold <= |group| == |payloads|
      && forall k :: 0 <= k < |group| ==> payloads[k] == group[k].message.payload
  }

  lemma {:induction false} SentRightly(keys: seq<Key>, data: seq<Post>, threshold: int, batchable: set<string>)
    ensures forall s <- EmitAll(keys, data, threshold, batchable) :: RightlySent(s, data, threshold, batchable)
  {
    hide Group;
    if keys != [] {
      var key := keys[|keys| - 1];
      SentRightly(keys[..|keys| - 1], data, threshold, batchable);
      GroupHasKey(data, key);
      var group := Group(data, key);
      forall s <- Emit(MessagesOf(group), key, threshold, batchable)
        ensures RightlySent(s, data, threshold, batchable)
      {
        if !(|group| >= threshold && key.action in batchable) {
          var k :| 0 <= k < |group| && s == Singly(MessagesOf(group), key.target)[k];
          assert group[k] in group && KeyOf(group[k]) == key;
          assert s.post == group[k];
        }
      }
    }
  }

  /** Exactly the groups of the threshold size that have a batch message are sent as one. */
  lemma BatchedExactly(data: seq<Post>, threshold: int, batchable: set<string>)
    ensures forall s <- Collapsed(data, threshold, batchable) :: RightlySent(s, data, threshold, batchable)
  {
    SentRightly(Keys(data), data, threshold, batchable);
  }

  lemma {:induction false} CountByKey(posts: seq<Post>, p: Post)
    ensures multiset(posts)[p] == multiset(Group(posts, KeyOf(p)))[p]
  {
    if posts != [] {
      var init, last := posts[..|posts| - 1], posts[|posts| - 1];
      assert posts == init + [last];
      CountByKey(init, p);
    }
  }

  /** Nothing is lost, nothing is duplicated, nothing is made up. */
  lemma CollapseKeepsAll(data: seq<Post>, threshold: int, batchable: set<string>)
    ensures multiset(Delivered(Collapsed(data, threshold, batchable))) == multiset(data)
  {
    hide *;
    var delivered := Delivered(Collapsed(data, threshold, batchable));
    forall p: Post ensures multiset(delivered)[p] == multiset(data)[p] {
      CollapseKeepsGroups(data, threshold, batchable, KeyOf(p));
      CountByKey(delivered, p);
      CountByKey(data, p);
    }
  }

  // ------------------------------------------------------ what a client makes of it

  function Put(state: map<Object, int>, payload: map<Object, Change>): map<Object, int> {
    map o | o in state.Keys + payload.Keys && (o in payload ==> payload[o].Upsert?) ::
      if o in payload && payload[o].Upsert? then payload[o].version else state[o]
  }

  /** The state of a client subscribed to `heard`. */
  function Fold(state: map<Object, int>, posts: seq<Post>, heard: set<Target>): map<Object, int> {
    if posts == [] then state else
      var p := posts[|posts| - 1];
      var before := Fold(state, posts[..|posts| - 1], heard);
      if p.target in heard then Put(before, p.message.payload) else before
  }

  predicate Touches(p: Post, heard: set<Target>, o: Object) {
    p.target in heard && o in p.message.payload
  }

  /** The last post the client hears about an object. */
  function LastTouch(posts: seq<Post>, heard: set<Target>, o: Object): (last: Option<Post>)
    ensures last.Some? ==> Touches(last.value, heard, o)
  {
    if posts == [] then None
    else if Touches(posts[|posts| - 1], heard, o) then Some(posts[|posts| - 1])
    else LastTouch(posts[..|posts| - 1], heard, o)
  }

  function Lookup(state: map<Object, int>, o: Object): Option<int> {
    if o in state then Some(state[o]) else None
  }

  /** Only the last post about an object matters for it. */
  lemma {:induction false} FoldIsLastTouch(state: map<Object, int>, posts: seq<Post>, heard: set<Target>, o: Object)
    ensures Lookup(Fold(state, posts, heard), o) ==
              match LastTouch(posts, heard, o)
              case None => Lookup(state, o)
              case Some(p) => if p.message.payload[o].Upsert? then Some(p.message.payload[o].version) else None
  {
    if posts != [] {
      FoldIsLastTouch(state, posts[..|posts| - 1], heard, o);
    }
  }

  lemma {:induction false} TouchIsThere(posts: seq<Post>, heard: set<Target>, o: Object)
    ensures LastTouch(posts, heard, o).Some? ==> LastTouch(posts, heard, o).value in posts
    ensures LastTouch(posts, heard, o).None? ==> forall p <- posts :: !Touches(p, heard, o)
  {
    if posts != [] {
      TouchIsThere(posts[..|posts| - 1], heard, o);
    }
  }

  lemma {:induction false} TouchAppend(a: seq<Post>, b: seq<Post>, heard: set<Target>, o: Object)
    ensures LastTouch(a + b, heard, o) ==
              if LastTouch(b, heard, o).Some? then LastTouch(b, heard, o) else LastTouch(a, heard, o)
  {
    if b == [] {
      assert a + b == a;
    } else {
      assert (a + b)[..|a + b| - 1] == a + b[..|b| - 1];
      TouchAppend(a, b[..|b| - 1], heard, o);
    }
  }

  /** The group of the last post about an object ends, for that object, with that post. */
  lemma {:induction false} TouchInGroup(data: seq<Post>, heard: set<Target>, o: Object)
    requires LastTouch(data, heard, o).Some?
    ensures LastTouch(Group(data, KeyOf(LastTouch(data, heard, o).value)), heard, o) == LastTouch(data, heard, o)
  {
    var init, p := data[..|data| - 1], data[|data| - 1];
    var key := KeyOf(LastTouch(data, heard, o).value);
    if !Touches(p, heard, o) {
      TouchInGroup(init, heard, o);
      if KeyOf(p) == key {
        assert (Group(init, key) + [p])[..|Group(init, key)|] == Group(init, key);
      } else {
        assert Group(init, key) + [] == Group(init, key);
      }
    }
  }

  /** Whether some post of this group is about the object. */
  predicate KeyTouches(data: seq<Post>, heard: set<Target>, o: Object, key: Key) {
    LastTouch(Group(data, key), heard, o).Some?
  }

  /** Of the groups about the object, the one opened last. */
  function LastOpened(keys: seq<Key>, data: seq<Post>, heard: set<Target>, o: Object): Option<Key> {
    if keys == [] then None
    else if KeyTouches(data, heard, o, keys[|keys| - 1]) then Some(keys[|keys| - 1])
    else LastOpened(keys[..|keys| - 1], data, heard, o)
  }

  lemma {:induction false} LastOpenedTouches(keys: seq<Key>, data: seq<Post>, heard: set<Target>, o: Object)
    ensures match LastOpened(keys, data, heard, o)
            case None => forall key <- keys :: !KeyTouches(data, heard, o, key)
            case Some(key) => key in keys && KeyTouches(data, heard, o, key)
  {
    hide KeyTouches;
    if keys != [] {
      var init, last := keys[..|keys| - 1], keys[|keys| - 1];
      assert keys == init + [last];
      LastOpenedTouches(init, data, heard, o);
    }
  }

  /** After regrouping, the last post about an object is the last one of the group opened last. */
  lemma {:induction false} LastOfGrouped(keys: seq<Key>, data: seq<Post>, heard: set<Target>, o: Object)
    ensures LastTouch(Grouped(keys, data), heard, o) ==
            match LastOpened(keys, data, heard, o)
            case None => None
            case Some(key) => LastTouch(Group(data, key), heard, o)
  {
    hide LastTouch, Group;
    if keys == [] {
      NothingTouches(heard, o);
    } else {
      var init, last := keys[..|keys| - 1], keys[|keys| - 1];
      LastOfGrouped(init, data, heard, o);
      TouchAppend(Grouped(init, data), Group(data, last), heard, o);
    }
  }

  lemma NothingTouches(heard: set<Target>, o: Object)
    ensures LastTouch([], heard, o) == None
  {
  }

  /** An object some post is about is in a group that is about it. */
  lemma TouchedIsOpened(data: seq<Post>, heard: set<Target>, o: Object)
    requires LastTouch(data, heard, o).Some?
    ensures LastOpened(Keys(data), data, heard, o).Some?
  {
    hide Keys, Group, LastTouch;
    var key := KeyOf(LastTouch(data, heard, o).value);
    TouchInGroup(data, heard, o);
    TouchIsThere(Group(data, key), heard, o);
    KeysAreThoseUsed(data, key);
    LastOpenedTouches(Keys(data), data, heard, o);
  }

  /** Exactly when regrouping leaves the client with the same last word about an object: when
      the last post about it belongs to the group, among those about it, that was opened last. */
  lemma SameLastTouch(data: seq<Post>, heard: set<Target>, o: Object, threshold: int, batchable: set<string>)
    requires LastTouch(data, heard, o).Some?
    ensures LastTouch(Delivered(Collapsed(data, threshold, batchable)), heard, o) == LastTouch(data, heard, o) <==>
            LastOpened(Keys(data), data, heard, o) == Some(KeyOf(LastTouch(data, heard, o).value))
  {
    hide Keys, Delivered, EmitAll, Group, Grouped, LastTouch, LastOpened;
    CollapseDelivers(Keys(data), data, threshold, batchable);
    LastOfGrouped(Keys(data), data, heard, o);
    TouchedIsOpened(data, heard, o);
    TouchInGroup(data, heard, o);
    var key := LastOpened(Keys(data), data, heard, o).value;
    TouchIsThere(Group(data, key), heard, o);
    GroupHasKey(data, key);
  }

  /** The last post about an object is in the group, among those about it, that was opened last. */
  predicate LastWordStays(data: seq<Post>, heard: set<Target>, o: Object) {
    LastTouch(data, heard, o).Some? ==>
      LastOpened(Keys(data), data, heard, o) == Some(KeyOf(LastTouch(data, heard, o).value))
  }

  ghost predicate LastWordsStay(data: seq<Post>, heard: set<Target>) {
    forall o: Object :: LastWordStays(data, heard, o)
  }

  /** That is exactly when the last word about every object is the same after regrouping. */
  lemma LastWordsStayExactly(data: seq<Post>, heard: set<Target>, threshold: int, batchable: set<string>)
    ensures LastWordsStay(data, heard) <==>
            forall o: Object ::
              LastTouch(Delivered(Collapsed(data, threshold, batchable)), heard, o) == LastTouch(data, heard, o)
  {
    hide Keys, Delivered, LastTouch, Collapsed, LastOpened, KeyOf;
    forall o: Object
      ensures LastTouch(Delivered(Collapsed(data, threshold, batchable)), heard, o) == LastTouch(data, heard, o) <==>
              LastWordStays(data, heard, o)
    {
      if LastTouch(data, heard, o).Some? {
        SameLastTouch(data, heard, o, threshold, batchable);
      } else {
        UntouchedStays(data, heard, o, threshold, batchable);
      }
    }
    if LastWordsStay(data, heard) {
      forall o: Object
        ensures LastTouch(Delivered(Collapsed(data, threshold, batchable)), heard, o) == LastTouch(data, heard, o)
      {
        assert LastWordStays(data, heard, o);
      }
    } else {
      var o: Object :| !LastWordStays(data, heard, o);
      assert LastTouch(Delivered(Collapsed(data, threshold, batchable)), heard, o) != LastTouch(data, heard, o);
    }
  }

  lemma UntouchedStays(data: seq<Post>, heard: set<Target>, o: Object, threshold: int, batchable: set<string>)
    requires LastTouch(data, heard, o).None?
    ensures LastTouch(Delivered(Collapsed(data, threshold, batchable)), heard, o).None?
  {
    hide Delivered, LastTouch, Collapsed;
    var delivered := Delivered(Collapsed(data, threshold, batchable));
    TouchIsThere(data, heard, o);
    TouchIsThere(delivered, heard, o);
    CollapseKeepsAll(data, threshold, batchable);
    assert forall p <- delivered :: p in multiset(delivered) && p in multiset(data) && p in data;
  }

  /** What the last post about an object does to it. */
  function LastChange(posts: seq<Post>, heard: set<Target>, o: Object): Option<Change> {
    match LastTouch(posts, heard, o)
    case None => None
    case Some(p) => Some(p.message.payload[o])
  }

  /** The last post about an object in the group opened last does the same to it as the last post
      about it of all. */
  predicate SameEffect(data: seq<Post>, heard: set<Target>, o: Object) {
    match LastOpened(Keys(data), data, heard, o)
    case None => true
    case Some(key) => LastChange(Group(data, key), heard, o) == LastChange(data, heard, o)
  }

  lemma SameEffectExactly(data: seq<Post>, heard: set<Target>, o: Object, state: map<Object, int>,
                          threshold: int, batchable: set<string>)
    ensures var regrouped := Fold(state, Delivered(Collapsed(data, threshold, batchable)), heard);
            Lookup(regrouped, o) == Lookup(Fold(state, data, heard), o) <==> SameEffect(data, heard, o)
  {
    hide Keys, Delivered, EmitAll, Group, Grouped, LastTouch, LastOpened, Fold, Lookup;
    var delivered := Delivered(Collapsed(data, threshold, batchable));
    CollapseDelivers(Keys(data), data, threshold, batchable);
    LastOfGrouped(Keys(data), data, heard, o);
    FoldIsLastTouch(state, delivered, heard, o);
    FoldIsLastTouch(state, data, heard, o);
    if LastTouch(data, heard, o).None? {
      UntouchedStays(data, heard, o, threshold, batchable);
      UntouchedIsNotOpened(data, heard, o);
    } else {
      TouchedIsOpened(data, heard, o);
      LastOpenedTouches(Keys(data), data, heard, o);
    }
  }

  lemma SameLookups(a: map<Object, int>, b: map<Object, int>)
    requires forall o: Object :: Lookup(a, o) == Lookup(b, o)
    ensures a == b
  {
    forall o: Object ensures (o in a <==> o in b) && (o in a ==> a[o] == b[o]) {
      assert Lookup(a, o) == Lookup(b, o);
    }
  }

  /** The client ends up in the same state as if every message had been sent as it was posted if
      and only if regrouping has the same effect on every object, for any threshold and any state
      it started from. */
  lemma FoldsAgreeExactly(data: seq<Post>, heard: set<Target>, state: map<Object, int>,
                          threshold: int, batchable: set<string>)
    ensures Fold(state, Delivered(Collapsed(data, threshold, batchable)), heard) == Fold(state, data, heard) <==>
            forall o: Object :: SameEffect(data, heard, o)
  {
    hide Delivered, Fold, Collapsed, SameEffect, Lookup;
    var regrouped := Fold(state, Delivered(Collapsed(data, threshold, batchable)), heard);
    var raw := Fold(state, data, heard);
    forall o: Object ensures Lookup(regrouped, o) == Lookup(raw, o) <==> SameEffect(data, heard, o) {
      SameEffectExactly(data, heard, o, state, threshold, batchable);
    }
    if forall o: Object :: SameEffect(data, heard, o) {
      forall o: Object ensures Lookup(regrouped, o) == Lookup(raw, o) {
        assert SameEffect(data, heard, o);
      }
      SameLookups(regrouped, raw);
    }
  }

  /** In particular when the last word about every object stays the last. */
  lemma CollapseKeepsMeaning(data: seq<Post>, heard: set<Target>, state: map<Object, int>,
                             threshold: int, batchable: set<string>)
    requires LastWordsStay(data, heard)
    ensures Fold(state, Delivered(Collapsed(data, threshold, batchable)), heard) == Fold(state, data, heard)
  {
    hide Keys, Delivered, Group, LastTouch, LastOpened, Fold, Collapsed;
    forall o: Object ensures SameEffect(data, heard, o) {
      assert LastWordStays(data, heard, o);
      if LastTouch(data, heard, o).Some? {
        TouchInGroup(data, heard, o);
      } else {
        UntouchedIsNotOpened(data, heard, o);
      }
    }
    FoldsAgreeExactly(data, heard, state, threshold, batchable);
  }

  lemma UntouchedIsNotOpened(data: seq<Post>, heard: set<Target>, o: Object)
    requires LastTouch(data, heard, o).None?
    ensures LastOpened(Keys(data), data, heard, o).None?
  {
    hide Keys, Group, LastTouch, LastOpened;
    TouchIsThere(data, heard, o);
    LastOpenedTouches(Keys(data), data, heard, o);
    var last := LastOpened(Keys(data), data, heard, o);
    if last.Some? {
      var key := last.value;
      TouchIsThere(Group(data, key), heard, o);
      GroupHasKey(data, key);
      assert false;
    }
  }

  /** No object the client hears about is touched under two actions or through two targets. */
  ghost predicate OneGroupPerObject(data: seq<Post>, heard: set<Target>) {
    forall p <- data, q <- data, o: Object ::
      Touches(p, heard, o) && Touches(q, heard, o) ==> KeyOf(p) == KeyOf(q)
  }

  /** In particular so when every object is touched in one group only. */
  lemma OneGroupIsEnough(data: seq<Post>, heard: set<Target>)
    requires OneGroupPerObject(data, heard)
    ensures LastWordsStay(data, heard)
  {
    hide Keys, Group, LastTouch, LastOpened;
    forall o: Object | LastTouch(data, heard, o).Some? ensures LastWordStays(data, heard, o) {
      TouchIsThere(data, heard, o);
      TouchedIsOpened(data, heard, o);
      LastOpenedTouches(Keys(data), data, heard, o);
      var key := LastOpened(Keys(data), data, heard, o).value;
      TouchIsThere(Group(data, key), heard, o);
      GroupHasKey(data, key);
      assert LastTouch(Group(data, key), heard, o).value in data;
    }
  }

  /** A post between two of another group ends up behind both. */
  lemma SecondGroupIsOvertaken(a: Post, b: Post, c: Post, threshold: int, batchable: set<string>)
    requires KeyOf(a) == KeyOf(c) != KeyOf(b)
    ensures Delivered(Collapsed([a, b, c], threshold, batchable)) == [a, c, b]
  {
    hide Delivered, EmitAll;
    var data, first, second := [a, b, c], KeyOf(a), KeyOf(b);
    assert data[..2] == [a, b] && [a, b][..1] == [a] && [a][..0] == [];
    KeysOfThree(a, b, c);
    GroupsOfThree(a, b, c);
    assert [first, second][..1] == [first] && [first][..0] == [];
    assert Grouped([first], data) == [a, c];
    assert Grouped([first, second], data) == [a, c, b];
    CollapseDelivers([first, second], data, threshold, batchable);
  }

  lemma KeysOfThree(a: Post, b: Post, c: Post)
    requires KeyOf(a) == KeyOf(c) != KeyOf(b)
    ensures Keys([a, b, c]) == [KeyOf(a), KeyOf(b)]
  {
    assert [a, b, c][..2] == [a, b] && [a, b][..1] == [a] && [a][..0] == [];
    assert Keys([a]) == [KeyOf(a)];
    assert Keys([a, b]) == [KeyOf(a), KeyOf(b)];
  }

  lemma GroupsOfThree(a: Post, b: Post, c: Post)
    requires KeyOf(a) == KeyOf(c) != KeyOf(b)
    ensures Group([a, b, c], KeyOf(a)) == [a, c] && Group([a, b, c], KeyOf(b)) == [b]
  {
    hide Group;
    GroupSnoc([], a, KeyOf(a));
    GroupSnoc([a], b, KeyOf(a));
    GroupSnoc([a, b], c, KeyOf(a));
    GroupSnoc([], a, KeyOf(b));
    GroupSnoc([a], b, KeyOf(b));
    GroupSnoc([a, b], c, KeyOf(b));
    EmptyGroup(KeyOf(a));
    EmptyGroup(KeyOf(b));
    assert [] + [a] == [a] && [a] + [b] == [a, b] && [a, b] + [c] == [a, b, c];
    assert [a] + [c] == [a, c] && [] + [b] == [b];
  }

  lemma GroupSnoc(data: seq<Post>, p: Post, key: Key)
    ensures Group(data + [p], key) == if KeyOf(p) == key then Group(data, key) + [p] else Group(data, key)
  {
    assert (data + [p])[..|data|] == data;
    assert Group(data, key) + [] == Group(data, key);
  }

  /** The condition is needed: an object stored, deleted and stored again in one transaction
      ends up deleted at the client, whatever the threshold. */
  lemma TwoActionsOnOneObject(o: Object, v: int, w: int, t: Target, threshold: int, batchable: set<string>)
    ensures var data := [Post(Message("changed", map[o := Upsert(v)]), t),
                         Post(Message("deleted", map[o := Delete]), t),
                         Post(Message("changed", map[o := Upsert(w)]), t)];
            && Lookup(Fold(map[], data, {t}), o) == Some(w)
            && Lookup(Fold(map[], Delivered(Collapsed(data, threshold, batchable)), {t}), o) == None
  {
    hide Fold, Delivered, Collapsed;
    var a, b, c := Post(Message("changed", map[o := Upsert(v)]), t), Post(Message("deleted", map[o := Delete]), t),
      Post(Message("changed", map[o := Upsert(w)]), t);
    assert KeyOf(a) == KeyOf(c) && KeyOf(b).action != KeyOf(a).action;
    SecondGroupIsOvertaken(a, b, c, threshold, batchable);
    FoldIsLastTouch(map[], [a, b, c], {t}, o);
    FoldIsLastTouch(map[], [a, c, b], {t}, o);
  }

  /** So is the target's part in it: a client that hears two targets can be left with a version
      older than the last one posted. */
  lemma TwoTargetsForOneObject(o: Object, u: int, v: int, w: int, t: Target, other: Target,
                               threshold: int, batchable: set<string>)
    requires t != other
    ensures var data := [Post(Message("changed", map[o := Upsert(u)]), t),
                         Post(Message("changed", map[o := Upsert(v)]), other),
                         Post(Message("changed", map[o := Upsert(w)]), t)];
            && Lookup(Fold(map[], data, {t, other}), o) == Some(w)
            && Lookup(Fold(map[], Delivered(Collapsed(data, threshold, batchable)), {t, other}), o) == Some(v)
  {
    hide Fold, Delivered, Collapsed;
    var a := Post(Message("changed", map[o := Upsert(u)]), t);
    var b := Post(Message("changed", map[o := Upsert(v)]), other);
    var c := Post(Message("changed", map[o := Upsert(w)]), t);
    SecondGroupIsOvertaken(a, b, c, threshold, batchable);
    FoldIsLastTouch(map[], [a, b, c], {t, other}, o);
    FoldIsLastTouch(map[], [a, c, b], {t, other}, o);
  }
}
