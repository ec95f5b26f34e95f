/** The chat between clients and the admin: the Message table as an in-memory sequence,
    the three ways a message is added, the per-user read, and the admin's grouping by sender.
    The current time and the acting user's id are parameters. */
module Chat {
  import opened Wrappers
  import opened Models

  /** Id used for a guest sender, and the receiver of a message a client sends from the chat widget. */
  const GuestId: int := 0

  /** Id the contact form addresses its messages to: the admin. */
  const AdminInboxId: int := 1

  /** Why adding a message failed; in every case nothing is stored.
      EmptyMessage: the chat widget sent no text (a 400 answer).
      MissingContent: a form sent no message field, so the NOT NULL content column rejects the row.
      BadUserId: the reply form's user id is missing or not a number. */
  datatype ChatError = EmptyMessage | MissingContent | BadUserId

  // ---------------------------------------------------------------- filters

  /** The elements of `s` that satisfy `p`, in their original order. */
  function Filter(s: seq<Message>, p: Message -> bool): (r: seq<Message>)
    ensures |r| <= |s|
    ensures forall x :: x in r <==> x in s && p(x)
  {
    if s == [] then []
    else
      var init := Filter(s[..|s| - 1], p);
      assert s == s[..|s| - 1] + [s[|s| - 1]];
      if p(s[|s| - 1]) then init + [s[|s| - 1]] else init
  }

  /** Filtering keeps every element that satisfies `p` as often as it occurs, and drops every other. */
  lemma {:induction false} FilterCounts(s: seq<Message>, p: Message -> bool)
    ensures forall x :: multiset(Filter(s, p))[x] == if p(x) then multiset(s)[x] else 0
  {
    if s != [] {
      var init := s[..|s| - 1];
      assert s == init + [s[|s| - 1]];
      FilterCounts(init, p);
    }
  }

  /** Filtering one more element at the end. */
  lemma FilterSnoc(s: seq<Message>, x: Message, p: Message -> bool)
    ensures Filter(s + [x], p) == Filter(s, p) + (if p(x) then [x] else [])
  {
    assert (s + [x])[..|s|] == s;
  }

  /** Filtering depends only on the multiset of the input. */
  lemma FilterPermutation(s: seq<Message>, t: seq<Message>, p: Message -> bool)
    requires multiset(s) == multiset(t)
    ensures multiset(Filter(s, p)) == multiset(Filter(t, p))
  {
    FilterCounts(s, p);
    FilterCounts(t, p);
    assert forall x :: multiset(Filter(s, p))[x] == multiset(Filter(t, p))[x];
  }

  /** Sent by `sender`. */
  function SenderIs(sender: int): Message -> bool
  {
    (m: Message) => m.senderId == sender
  }

  /** Sent or received by `user`. */
  function Involves(user: int): Message -> bool
  {
    (m: Message) => m.senderId == user || m.receiverId == user
  }

  /** The messages of `s` sent by `sender`, in order. */
  function FromSender(s: seq<Message>, sender: int): seq<Message>
  {
    Filter(s, SenderIs(sender))
  }

  /** The sender ids that occur in `s`. */
  function Senders(s: seq<Message>): set<int>
  {
    set m | m in s :: m.senderId
  }

  // ---------------------------------------------------------------- ordering by timestamp

  /** Timestamps never decrease along `s`. */
  predicate SortedByTime(s: seq<Message>)
  {
    forall i, j :: 0 <= i < j < |s| ==> s[i].timestamp <= s[j].timestamp
  }

  /** Insert `m` into `s` just before the first message that is later than it. */
  function InsertByTime(m: Message, s: seq<Message>): (r: seq<Message>)
    ensures |r| == |s| + 1
    ensures multiset(r) == multiset(s) + multiset{m}
  {
    if s == [] then [m]
    else if m.timestamp < s[0].timestamp then [m] + s
    else
      assert s == [s[0]] + s[1..];
      [s[0]] + InsertByTime(m, s[1..])
  }

  /** Inserting into a time-ordered sequence keeps it time-ordered; the first message is `m` or the old first one. */
  lemma {:induction false} InsertKeepsOrder(m: Message, s: seq<Message>)
    requires SortedByTime(s)
    ensures SortedByTime(InsertByTime(m, s))
    ensures s != [] ==> InsertByTime(m, s)[0] == if m.timestamp < s[0].timestamp then m else s[0]
  {
    if s != [] && m.timestamp >= s[0].timestamp {
      var rest := InsertByTime(m, s[1..]);
      InsertKeepsOrder(m, s[1..]);
      assert s[0].timestamp <= rest[0].timestamp;
      var r := [s[0]] + rest;
      forall i, j | 0 <= i < j < |r| ensures r[i].timestamp <= r[j].timestamp {
        if i == 0 {
          assert r[j] == rest[j - 1];
          assert rest[0].timestamp <= rest[j - 1].timestamp;
        } else {
          assert r[i] == rest[i - 1] && r[j] == rest[j - 1];
        }
      }
    }
  }

  /** The messages of `s` ordered by timestamp; messages with equal timestamps keep their order. */
  function SortByTime(s: seq<Message>): (r: seq<Message>)
    ensures |r| == |s|
    ensures multiset(r) == multiset(s)
    ensures SortedByTime(r)
  {
    if s == [] then []
    else
      var init := s[..|s| - 1];
      assert s == init + [s[|s| - 1]];
      InsertKeepsOrder(s[|s| - 1], SortByTime(init));
      InsertByTime(s[|s| - 1], SortByTime(init))
  }

  /** A subsequence of a time-ordered sequence is time-ordered. */
  lemma {:induction false} FilterKeepsOrder(s: seq<Message>, p: Message -> bool)
    requires SortedByTime(s)
    ensures SortedByTime(Filter(s, p))
  {
    if s != [] {
      var init := s[..|s| - 1];
      var last := s[|s| - 1];
      FilterKeepsOrder(init, p);
      var f := Filter(init, p);
      forall x | x in f ensures x.timestamp <= last.timestamp {
        assert x in init;
      }
    }
  }

  // ---------------------------------------------------------------- grouping by sender

  /** No id occurs twice in `keys`. */
  predicate Distinct(keys: seq<int>)
  {
    forall i, j :: 0 <= i < j < |keys| ==> keys[i] != keys[j]
  }

  /** The sender ids of `s` in the order of their first message: the key order of a
      dictionary filled by walking `s` from the front. */
  function SenderOrder(s: seq<Message>): (keys: seq<int>)
    ensures Distinct(keys)
    ensures forall k :: k in keys <==> k in Senders(s)
  {
    if s == [] then []
    else
      var init := s[..|s| - 1];
      var last := s[|s| - 1];
      var before := SenderOrder(init);
      assert s == init + [last];
      assert Senders(s) == Senders(init) + {last.senderId};
      if last.senderId in before then before else before + [last.senderId]
  }

  /** The total number of messages in the groups listed in `keys`. */
  function SumSizes(keys: seq<int>, groups: map<int, seq<Message>>): nat
    requires forall i :: 0 <= i < |keys| ==> keys[i] in groups
  {
    if keys == [] then 0 else |groups[keys[0]]| + SumSizes(keys[1..], groups)
  }

  /** Changing a group not listed in `keys` leaves the total unchanged. */
  lemma {:induction false} SumSizesOther(keys: seq<int>, groups: map<int, seq<Message>>, k: int, g: seq<Message>)
    requires forall i :: 0 <= i < |keys| ==> keys[i] in groups
    requires k !in keys
    ensures SumSizes(keys, groups[k := g]) == SumSizes(keys, groups)
  {
    if keys != [] {
      SumSizesOther(keys[1..], groups, k, g);
    }
  }

  /** Listing one more group adds its size to the total. */
  lemma {:induction false} SumSizesSnoc(keys: seq<int>, groups: map<int, seq<Message>>, k: int)
    requires forall i :: 0 <= i < |keys| ==> keys[i] in groups
    requires k in groups
    ensures SumSizes(keys + [k], groups) == SumSizes(keys, groups) + |groups[k]|
  {
    if keys != [] {
      assert (keys + [k])[1..] == keys[1..] + [k];
      SumSizesSnoc(keys[1..], groups, k);
    }
  }

  /** Appending one message to a group that is listed once adds one to the total. */
  lemma {:induction false} SumSizesGrow(keys: seq<int>, groups: map<int, seq<Message>>, k: int, m: Message)
    requires forall i :: 0 <= i < |keys| ==> keys[i] in groups
    requires Distinct(keys) && k in keys
    ensures SumSizes(keys, groups[k := groups[k] + [m]]) == SumSizes(keys, groups) + 1
  {
    if keys[0] == k {
      assert k !in keys[1..] by {
        forall i | 0 <= i < |keys[1..]| ensures keys[1..][i] != k {
          assert keys[1..][i] == keys[i + 1];
        }
      }
      SumSizesOther(keys[1..], groups, k, groups[k] + [m]);
    } else {
      SumSizesGrow(keys[1..], groups, k, m);
    }
  }

  /** `order` and `grouped` are what the grouping loop has built after walking `s`. */
  ghost predicate IsGrouping(s: seq<Message>, order: seq<int>, grouped: map<int, seq<Message>>)
  {
    && grouped.Keys == Senders(s)
    && (forall k :: k in grouped ==> grouped[k] == FromSender(s, k) && grouped[k] != [])
    && order == SenderOrder(s)
    && (forall k :: k in order <==> k in grouped)
    && (forall i :: 0 <= i < |order| ==> order[i] in grouped)
    && SumSizes(order, grouped) == |s|
  }

  /** Walking one more message extends exactly the group of its sender. */
  lemma FromSenderSnoc(s: seq<Message>, m: Message)
    ensures forall k :: FromSender(s + [m], k) == FromSender(s, k) + (if m.senderId == k then [m] else [])
  {
    forall k ensures FromSender(s + [m], k) == FromSender(s, k) + (if m.senderId == k then [m] else []) {
      FilterSnoc(s, m, SenderIs(k));
    }
  }

  /** Walking one more message adds its sender to the senders and, on its first message, to the key order. */
  lemma SendersSnoc(s: seq<Message>, m: Message)
    ensures Senders(s + [m]) == Senders(s) + {m.senderId}
    ensures SenderOrder(s + [m]) == if m.senderId in Senders(s) then SenderOrder(s) else SenderOrder(s) + [m.senderId]
  {
    assert (s + [m])[..|s|] == s;
  }

  /** The groups after one step: `m` appended to the group of its sender, the group created empty first if needed. */
  function AppendToGroup(grouped: map<int, seq<Message>>, m: Message): map<int, seq<Message>>
  {
    grouped[m.senderId := (if m.senderId in grouped then grouped[m.senderId] else []) + [m]]
  }

  /** The key order after one step: a sender seen for the first time is listed last. */
  function ExtendOrder(order: seq<int>, grouped: map<int, seq<Message>>, m: Message): seq<int>
  {
    if m.senderId in grouped then order else order + [m.senderId]
  }

  /** A grouping step keeps the key set equal to the senders walked so far. */
  lemma StepKeys(s: seq<Message>, m: Message, grouped: map<int, seq<Message>>)
    requires grouped.Keys == Senders(s)
    ensures AppendToGroup(grouped, m).Keys == Senders(s + [m])
  {
    SendersSnoc(s, m);
  }

  /** A sender id that occurs in no message has no messages. */
  lemma {:induction false} NoMessagesFromOutsider(s: seq<Message>, k: int)
    requires k !in Senders(s)
    ensures FromSender(s, k) == []
  {
    if s != [] {
      var init := s[..|s| - 1];
      assert s == init + [s[|s| - 1]];
      assert Senders(init) <= Senders(s);
      NoMessagesFromOutsider(init, k);
    }
  }

  /** A grouping step keeps every group equal to its sender's messages walked so far. */
  lemma StepGroups(s: seq<Message>, m: Message, grouped: map<int, seq<Message>>)
    requires forall k :: k in grouped ==> grouped[k] == FromSender(s, k) && grouped[k] != []
    requires grouped.Keys == Senders(s)
    ensures var g := AppendToGroup(grouped, m);
      forall k :: k in g ==> g[k] == FromSender(s + [m], k) && g[k] != []
  {
    FromSenderSnoc(s, m);
    var g := AppendToGroup(grouped, m);
    forall k | k in g ensures g[k] == FromSender(s + [m], k) {
      if k != m.senderId {
        assert g[k] == grouped[k];
      } else if k !in grouped {
        NoMessagesFromOutsider(s, k);
      }
    }
  }

  /** A grouping step keeps the key order equal to the order of first messages. */
  lemma StepOrder(s: seq<Message>, m: Message, order: seq<int>, grouped: map<int, seq<Message>>)
    requires order == SenderOrder(s) && grouped.Keys == Senders(s)
    ensures ExtendOrder(order, grouped, m) == SenderOrder(s + [m])
  {
    SendersSnoc(s, m);
  }

  /** A grouping step adds one to the total size of the listed groups and keeps the key order listing exactly the keys. */
  lemma StepSum(order: seq<int>, grouped: map<int, seq<Message>>, m: Message)
    requires Distinct(order) && forall k :: k in order <==> k in grouped
    requires forall i :: 0 <= i < |order| ==> order[i] in grouped
    ensures var o, g := ExtendOrder(order, grouped, m), AppendToGroup(grouped, m);
      && (forall k :: k in o <==> k in g)
      && (forall i :: 0 <= i < |o| ==> o[i] in g)
      && SumSizes(o, g) == SumSizes(order, grouped) + 1
  {
    var o, g := ExtendOrder(order, grouped, m), AppendToGroup(grouped, m);
    forall i | 0 <= i < |o| ensures o[i] in g {
      assert o[i] in o;
    }
    if m.senderId in grouped {
      SumSizesGrow(order, grouped, m.senderId, m);
    } else {
      assert [] + [m] == [m];
      assert g == grouped[m.senderId := [m]];
      SumSizesOther(order, grouped, m.senderId, [m]);
      SumSizesSnoc(order, g, m.senderId);
      assert o == order + [m.senderId];
    }
  }

  /** One step of the grouping loop keeps IsGrouping. */
  lemma GroupingStep(s: seq<Message>, m: Message, order: seq<int>, grouped: map<int, seq<Message>>)
    requires IsGrouping(s, order, grouped)
    ensures IsGrouping(s + [m], ExtendOrder(order, grouped, m), AppendToGroup(grouped, m))
  {
    StepKeys(s, m, grouped);
    StepGroups(s, m, grouped);
    StepOrder(s, m, order, grouped);
    StepSum(order, grouped, m);
  }

  /** A prefix one longer is the prefix and the next message. */
  lemma PrefixSnoc(s: seq<Message>, prefix: seq<Message>, i: int)
    requires 0 <= i < |s| && prefix == s[..i]
    ensures prefix + [s[i]] == s[..i + 1]
  {
  }

  /** Nothing walked: no keys and no groups. */
  lemma EmptyGrouping()
    ensures IsGrouping([], [], map[])
  {
    assert Senders([]) == {};
  }

  /** The groups a walk over `s` builds, one message at a time. */
  function GroupAll(s: seq<Message>): map<int, seq<Message>>
  {
    if s == [] then map[] else AppendToGroup(GroupAll(s[..|s| - 1]), s[|s| - 1])
  }

  /** Walking one more message is one more grouping step. */
  lemma GroupAllSnoc(s: seq<Message>, m: Message)
    ensures GroupAll(s + [m]) == AppendToGroup(GroupAll(s), m)
  {
    assert (s + [m])[..|s|] == s;
  }

  /** The walk over `s` gives a grouping of `s`, with the senders in first-message order. */
  lemma {:induction false} GroupAllIsGrouping(s: seq<Message>)
    ensures IsGrouping(s, SenderOrder(s), GroupAll(s))
  {
    if s == [] {
      EmptyGrouping();
    } else {
      var init, last := s[..|s| - 1], s[|s| - 1];
      assert s == init + [last];
      GroupAllIsGrouping(init);
      GroupingStep(init, last, SenderOrder(init), GroupAll(init));
    }
  }

  /** The admin's grouping: walks the messages in order and appends each to the group of its
      sender, creating the group on its sender's first message. Returns the groups and their
      key order. The key is always the sender, so an admin's replies form the admin's own group. */
  method GroupBySender(chats: seq<Message>) returns (order: seq<int>, grouped: map<int, seq<Message>>)
    ensures grouped.Keys == Senders(chats)
    ensures forall k :: k in grouped ==> grouped[k] == FromSender(chats, k) && grouped[k] != []
    ensures order == SenderOrder(chats)
    ensures Distinct(order) && forall k :: k in order <==> k in grouped
    ensures forall i :: 0 <= i < |order| ==> order[i] in grouped
    ensures SumSizes(order, grouped) == |chats|
  {
    order, grouped := [], map[];
    var i := 0;
    ghost var walked: seq<Message> := [];
    while i < |chats|
      invariant 0 <= i <= |chats| && walked == chats[..i]
      invariant order == SenderOrder(walked) && grouped == GroupAll(walked)
    {
      var msg := chats[i];
      GroupAllIsGrouping(walked);
      SendersSnoc(walked, msg);
      GroupAllSnoc(walked, msg);
      PrefixSnoc(chats, walked, i);
      order, grouped := ExtendOrder(order, grouped, msg), AppendToGroup(grouped, msg);
      walked := walked + [msg];
      i := i + 1;
    }
    assert walked == chats;
    GroupAllIsGrouping(chats);
  }

  // ---------------------------------------------------------------- facts used by the store's reads

  /** Two sequences with the same messages have the same senders. */
  lemma SendersOfPermutation(s: seq<Message>, t: seq<Message>)
    requires multiset(s) == multiset(t)
    ensures Senders(s) == Senders(t)
  {
    forall k | k in Senders(s) ensures k in Senders(t) {
      var m :| m in s && m.senderId == k;
      assert m in multiset(t);
    }
    forall k | k in Senders(t) ensures k in Senders(s) {
      var m :| m in t && m.senderId == k;
      assert m in multiset(s);
    }
  }

  /** The messages of one sender, taken from the time-ordered table, are that sender's messages, time-ordered. */
  lemma SortedGroup(s: seq<Message>, k: int)
    ensures SortedByTime(FromSender(SortByTime(s), k))
    ensures multiset(FromSender(SortByTime(s), k)) == multiset(FromSender(s, k))
  {
    FilterKeepsOrder(SortByTime(s), SenderIs(k));
    FilterPermutation(SortByTime(s), s, SenderIs(k));
  }

  /** Grouping the time-ordered table by sender gives, per sender, exactly its messages, time-ordered. */
  lemma GroupsOfSortedTable(s: seq<Message>, grouped: map<int, seq<Message>>)
    requires grouped.Keys == Senders(SortByTime(s))
    requires forall k :: k in grouped ==> grouped[k] == FromSender(SortByTime(s), k) && grouped[k] != []
    ensures grouped.Keys == Senders(s)
    ensures forall k :: k in grouped ==>
      && grouped[k] != []
      && SortedByTime(grouped[k])
      && multiset(grouped[k]) == multiset(FromSender(s, k))
  {
    SendersOfPermutation(SortByTime(s), s);
    forall k | k in grouped
      ensures SortedByTime(grouped[k]) && multiset(grouped[k]) == multiset(FromSender(s, k))
    {
      SortedGroup(s, k);
    }
  }

  /** In a grouping by sender, every message lies in the group of its own sender and in no other group. */
  lemma EachMessageInOneGroup(s: seq<Message>, grouped: map<int, seq<Message>>)
    requires grouped.Keys == Senders(s)
    requires forall k :: k in grouped ==> grouped[k] == FromSender(s, k)
    ensures forall m :: m in s ==> m.senderId in grouped && m in grouped[m.senderId]
    ensures forall k, m :: k in grouped && m in grouped[k] ==> m in s && m.senderId == k
  {
    forall m | m in s ensures m.senderId in grouped && m in grouped[m.senderId] {
      assert m.senderId in Senders(s);
    }
  }

  /** Time of the first message of `sender` in `s`, or 0 when it has none. */
  function FirstTime(s: seq<Message>, sender: int): int
  {
    var g := FromSender(s, sender);
    if g == [] then 0 else g[0].timestamp
  }

  /** A sender that occurs in `s` has messages in it. */
  lemma SenderHasMessages(s: seq<Message>, k: int)
    requires k in Senders(s)
    ensures FromSender(s, k) != []
  {
    var m :| m in s && m.senderId == k;
    assert m in FromSender(s, k);
  }

  /** One more message does not move the first message of a sender already present. */
  lemma FirstTimeSnoc(s: seq<Message>, m: Message, k: int)
    requires k in Senders(s)
    ensures FirstTime(s + [m], k) == FirstTime(s, k)
  {
    SenderHasMessages(s, k);
    FilterSnoc(s, m, SenderIs(k));
  }

  /** In a time-ordered sequence, every sender's first message is no later than the last message. */
  lemma FirstTimeBeforeLast(s: seq<Message>, m: Message, k: int)
    requires SortedByTime(s + [m]) && k in Senders(s)
    ensures FirstTime(s, k) <= m.timestamp
  {
    SenderHasMessages(s, k);
    var x := FromSender(s, k)[0];
    assert x in FromSender(s, k);
    var idx :| 0 <= idx < |s| && s[idx] == x;
    assert (s + [m])[idx] == x && (s + [m])[|s|] == m;
  }

  /** Two senders already present keep the order of their first messages when a message is added. */
  lemma OldKeysByFirstTime(s: seq<Message>, m: Message, a: int, b: int)
    requires a in Senders(s) && b in Senders(s) && FirstTime(s, a) <= FirstTime(s, b)
    ensures FirstTime(s + [m], a) <= FirstTime(s + [m], b)
  {
    FirstTimeSnoc(s, m, a);
    FirstTimeSnoc(s, m, b);
  }

  /** In a time-ordered sequence, a sender whose first message is the last one comes after every other sender. */
  lemma NewKeyByFirstTime(s: seq<Message>, m: Message, a: int)
    requires SortedByTime(s + [m]) && a in Senders(s) && m.senderId !in Senders(s)
    ensures FirstTime(s + [m], a) <= FirstTime(s + [m], m.senderId)
  {
    FirstTimeSnoc(s, m, a);
    NoMessagesFromOutsider(s, m.senderId);
    FilterSnoc(s, m, SenderIs(m.senderId));
    FirstTimeBeforeLast(s, m, a);
  }

  /** One step of `KeyOrderByFirstTime`: a pair of keys after adding `m`, given the order of the pair before. */
  lemma KeyPairByFirstTime(s: seq<Message>, m: Message, i: int, j: int)
    requires SortedByTime(s + [m])
    requires 0 <= i < j < |SenderOrder(s + [m])|
    requires j < |SenderOrder(s)| ==> FirstTime(s, SenderOrder(s)[i]) <= FirstTime(s, SenderOrder(s)[j])
    ensures FirstTime(s + [m], SenderOrder(s + [m])[i]) <= FirstTime(s + [m], SenderOrder(s + [m])[j])
  {
    SendersSnoc(s, m);
    var o, o2 := SenderOrder(s), SenderOrder(s + [m]);
    assert o2[i] == o[i] && o[i] in o;
    if j < |o| {
      assert o2[j] == o[j] && o[j] in o;
      OldKeysByFirstTime(s, m, o[i], o[j]);
    } else {
      NewKeyByFirstTime(s, m, o[i]);
    }
  }

  /** Walking a time-ordered sequence meets senders in the order of the time of their first message. */
  lemma {:induction false} KeyOrderByFirstTime(t: seq<Message>)
    requires SortedByTime(t)
    ensures forall i, j :: 0 <= i < j < |SenderOrder(t)| ==> FirstTime(t, SenderOrder(t)[i]) <= FirstTime(t, SenderOrder(t)[j])
  {
    if t != [] {
      var init, last := t[..|t| - 1], t[|t| - 1];
      assert t == init + [last];
      assert SortedByTime(init);
      KeyOrderByFirstTime(init);
      forall i, j | 0 <= i < j < |SenderOrder(t)| ensures FirstTime(t, SenderOrder(t)[i]) <= FirstTime(t, SenderOrder(t)[j]) {
        KeyPairByFirstTime(init, last, i, j);
      }
    }
  }

  /** Grouping a time-ordered sequence lists the senders by the time of their earliest message.
      This holds however messages with equal timestamps were ordered. */
  lemma KeysInFirstMessageOrder(t: seq<Message>, order: seq<int>, grouped: map<int, seq<Message>>)
    requires SortedByTime(t)
    requires order == SenderOrder(t) && grouped.Keys == Senders(t)
    requires forall k :: k in grouped ==> grouped[k] == FromSender(t, k) && grouped[k] != []
    ensures forall i :: 0 <= i < |order| ==> order[i] in grouped
    ensures forall i, j :: 0 <= i < j < |order| ==> grouped[order[i]][0].timestamp <= grouped[order[j]][0].timestamp
  {
    KeyOrderByFirstTime(t);
    forall i | 0 <= i < |order| ensures order[i] in grouped {
      assert order[i] in order;
    }
  }

  /** A message is filed under its sender's id: in a grouping by sender of a table that holds it, it lies in
      its sender's group and not in the group of its receiver. So an admin reply is filed under the admin,
      not under the user it answers. */
  lemma ReplyFiledUnderSender(s: seq<Message>, grouped: map<int, seq<Message>>, reply: Message)
    requires reply in s && reply.senderId != reply.receiverId
    requires grouped.Keys == Senders(s)
    requires forall k :: k in grouped ==> multiset(grouped[k]) == multiset(FromSender(s, k))
    ensures reply.senderId in grouped && reply in grouped[reply.senderId]
    ensures reply.receiverId in grouped ==> reply !in grouped[reply.receiverId]
  {
    assert reply.senderId in Senders(s);
    assert reply in FromSender(s, reply.senderId);
    assert reply in multiset(grouped[reply.senderId]);
    if reply.receiverId in grouped {
      assert reply !in FromSender(s, reply.receiverId);
      assert reply !in multiset(FromSender(s, reply.receiverId));
    }
  }

  /** Rows numbered by position never repeat: every message occurs at most once. */
  lemma {:induction false} NumberedRowsAreDistinct(s: seq<Message>)
    requires forall i :: 0 <= i < |s| ==> s[i].id == i + 1
    ensures forall x :: multiset(s)[x] <= 1
  {
    if s != [] {
      var init := s[..|s| - 1];
      var last := s[|s| - 1];
      assert s == init + [last];
      NumberedRowsAreDistinct(init);
      assert last !in init by {
        forall i | 0 <= i < |init| ensures init[i] != last {
          assert init[i].id == i + 1 < |s| == last.id;
        }
      }
    }
  }

  // ---------------------------------------------------------------- the store

  /** The Message table. Rows are kept in insertion order; the row at index i has id i + 1. */
  class MessageStore {
    var messages: seq<Message>

    /** Ids are assigned 1, 2, 3, ... in insertion order, as the primary key column does.
        So no row occurs twice (`NoRowTwice`), and the multisets in the contracts below count each row once. */
    ghost predicate Valid()
      reads this
    {
      forall i :: 0 <= i < |messages| ==> messages[i].id == i + 1
    }

    /** A valid table never holds the same message twice. */
    lemma NoRowTwice()
      requires Valid()
      ensures forall x :: multiset(messages)[x] <= 1
    {
      NumberedRowsAreDistinct(messages);
    }

    /** An empty table. */
    constructor ()
      ensures Valid() && messages == []
    {
      messages := [];
    }

    /** A client message from the chat widget. No text (missing or empty) is refused and nothing is stored;
        otherwise one row is added from the current user to id 0, not marked as an admin message. */
    method SendMessage(currentUserId: int, content: Option<string>, now: int) returns (r: Outcome<ChatError>)
      requires Valid()
      modifies this
      ensures Valid()
      ensures content.None? || content.value == [] ==> r == Fail(EmptyMessage) && messages == old(messages)
      ensures content.Some? && content.value != [] ==>
        r == Pass && messages == old(messages) + [Message(|old(messages)| + 1, currentUserId, GuestId, content.value, false, now)]
    {
      if content.None? || content.value == [] {
        return Fail(EmptyMessage);
      }
      messages := messages + [NewMessage(|messages| + 1, currentUserId, GuestId, content.value, None, now)];
      r := Pass;
    }

    /** A guest message from the contact form, from id 0 to the admin inbox id 1, not marked as an admin message.
        An empty text is stored; a missing one violates the NOT NULL content column and nothing is stored. */
    method Contact(content: Option<string>, now: int) returns (r: Outcome<ChatError>)
      requires Valid()
      modifies this
      ensures Valid()
      ensures content.None? ==> r == Fail(MissingContent) && messages == old(messages)
      ensures content.Some? ==>
        r == Pass && messages == old(messages) + [Message(|old(messages)| + 1, GuestId, AdminInboxId, content.value, false, now)]
    {
      if content.None? {
        return Fail(MissingContent);
      }
      messages := messages + [NewMessage(|messages| + 1, GuestId, AdminInboxId, content.value, Some(false), now)];
      r := Pass;
    }

    /** An admin reply from the acting user to `userId`, marked as an admin message.
        `userId` is None when the form's user id is missing or not a number; that is checked first.
        A missing text violates the NOT NULL content column. Either failure stores nothing. */
    method ReplyToUser(adminId: int, userId: Option<int>, content: Option<string>, now: int) returns (r: Outcome<ChatError>)
      requires Valid()
      modifies this
      ensures Valid()
      ensures userId.None? ==> r == Fail(BadUserId) && messages == old(messages)
      ensures userId.Some? && content.None? ==> r == Fail(MissingContent) && messages == old(messages)
      ensures userId.Some? && content.Some? ==>
        r == Pass && messages == old(messages) + [Message(|old(messages)| + 1, adminId, userId.value, content.value, true, now)]
    {
      if userId.None? {
        return Fail(BadUserId);
      }
      if content.None? {
        return Fail(MissingContent);
      }
      messages := messages + [NewMessage(|messages| + 1, adminId, userId.value, content.value, Some(true), now)];
      r := Pass;
    }

    /** The conversation of `user`: every stored message it sent or received, and no other, oldest first. */
    function MessagesFor(user: int): (r: seq<Message>)
      reads this
      ensures SortedByTime(r)
      ensures multiset(r) == multiset(Filter(messages, Involves(user)))
      ensures forall m :: m in r <==> m in messages && (m.senderId == user || m.receiverId == user)
    {
      var r := SortByTime(Filter(messages, Involves(user)));
      assert forall m :: m in r <==> m in multiset(r);
      r
    }

    /** The admin's view: the table read oldest first and grouped by sender.
        Every sender has one non-empty group holding exactly its messages, oldest first;
        the groups together hold every message once; keys are listed in the order of each sender's first message. */
    method GroupedChats() returns (order: seq<int>, grouped: map<int, seq<Message>>)
      ensures grouped.Keys == Senders(messages)
      ensures forall k :: k in grouped ==>
        && grouped[k] != []
        && SortedByTime(grouped[k])
        && multiset(grouped[k]) == multiset(FromSender(messages, k))
      ensures Distinct(order) && forall k :: k in order <==> k in grouped
      ensures forall i :: 0 <= i < |order| ==> order[i] in grouped
      ensures forall i, j :: 0 <= i < j < |order| ==> grouped[order[i]][0].timestamp <= grouped[order[j]][0].timestamp
      ensures SumSizes(order, grouped) == |messages|
    {
      var table := messages;
      order, grouped := GroupBySender(SortByTime(table));
      KeysInFirstMessageOrder(SortByTime(table), order, grouped);
      GroupsOfSortedTable(table, grouped);
    }
  }

  /** A conversation as the pages produce it: a guest writes through the contact form, a client
      writes in the chat widget, the admin answers the client; an empty chat message is refused.
      The client then sees its own message and the answer; the admin's grouping files the answer
      under the admin's id, not under the client's. */
  method ChatScenario(now: int)
  {
    var store := new MessageStore();
    var r := store.Contact(Some("Do you do PhD work?"), now);
    assert r == Pass;
    r := store.SendMessage(5, Some("Is my essay started?"), now + 60);
    assert r == Pass;
    var question := store.messages[1];
    assert question == Message(2, 5, GuestId, "Is my essay started?", false, now + 60);
    r := store.ReplyToUser(1, Some(5), Some("Yes, today."), now + 120);
    assert r == Pass;
    var answer := store.messages[2];
    assert answer == Message(3, 1, 5, "Yes, today.", true, now + 120);
    r := store.SendMessage(5, Some(""), now + 180);
    assert r == Fail(EmptyMessage) && |store.messages| == 3;
    var mine := store.MessagesFor(5);
    assert question in store.messages && answer in store.messages;
    assert question in mine && answer in mine;
    var order, grouped := store.GroupedChats();
    assert question.senderId == 5 && question in store.messages;
    ReplyFiledUnderSender(store.messages, grouped, answer);
    assert 5 in grouped;
    assert answer in grouped[1] && answer !in grouped[5];
  }
}
