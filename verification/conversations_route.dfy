/**
 * `GET /api/conversations` (app/api/conversations/route.ts): reads the message log
 * newest first, keeps the first message seen for every counterparty in an
 * insertion-ordered map, and returns the summaries sorted newest first.
 *
 * `Summaries` is the specification of the grouping loop: the summaries of a
 * message sequence, in first-seen order. Its lemmas say what the list means
 * (one summary per counterparty, taken from that counterparty's first message);
 * `Get` is the handler itself, proved to return `ConversationList`.
 */
module ConversationsRoute {
  import opened Types
  import opened Sorting

  /** A message the operator sent (compare components/MessageList.tsx). */
  predicate IsOutbound(m: Message, operator: string) {
    m.from_number == operator
  }

  /**
   * The other party of a message: the recipient of what the operator sent, the
   * sender of anything else. Numbers are compared as raw strings.
   */
  function Counterparty(m: Message, operator: string): (p: string)
    ensures p == m.from_number || p == m.to_number
    ensures IsOutbound(m, operator) ==> p == m.to_number
    ensures !IsOutbound(m, operator) ==> p == m.from_number
    ensures p == operator <==> m.from_number == operator && m.to_number == operator
  {
    if IsOutbound(m, operator) then m.to_number else m.from_number
  }

  /** The summary a message gives its counterparty's conversation. */
  function SummaryOf(m: Message, operator: string): Conversation {
    Conversation(Counterparty(m, operator), m.body, m.created_at, 0)
  }

  /** Every counterparty the messages `ms` mention. */
  function Counterparties(ms: seq<Message>, operator: string): set<string> {
    if ms == [] then {}
    else Counterparties(ms[..|ms| - 1], operator) + {Counterparty(ms[|ms| - 1], operator)}
  }

  /** The counterparties are those of the messages, whatever their order. */
  lemma {:induction false} CounterpartiesOfMessages(ms: seq<Message>, operator: string)
    ensures Counterparties(ms, operator) == set m | m in ms :: Counterparty(m, operator)
  {
    if ms != [] {
      var pre := ms[..|ms| - 1];
      var m := ms[|ms| - 1];
      assert ms == pre + [m];
      CounterpartiesOfMessages(pre, operator);
      assert forall x :: x in ms <==> x in pre || x == m;
    }
  }

  lemma {:induction false} CounterpartyIn(ms: seq<Message>, j: nat, operator: string)
    requires j < |ms|
    ensures Counterparty(ms[j], operator) in Counterparties(ms, operator)
  {
    var pre := ms[..|ms| - 1];
    if j < |pre| {
      CounterpartyIn(pre, j, operator);
      assert ms[j] == pre[j];
    }
  }

  function Phones(cs: seq<Conversation>): seq<string> {
    seq(|cs|, k requires 0 <= k < |cs| => cs[k].phone_number)
  }

  predicate DistinctPhones(cs: seq<Conversation>) {
    forall k, l :: 0 <= k < l < |cs| ==> cs[k].phone_number != cs[l].phone_number
  }

  /**
   * The grouping loop over a message sequence: a message whose counterparty
   * already has a summary changes nothing, any other appends its own summary.
   */
  function Summaries(ms: seq<Message>, operator: string): seq<Conversation> {
    if ms == [] then []
    else
      var prev := Summaries(ms[..|ms| - 1], operator);
      var m := ms[|ms| - 1];
      if Counterparty(m, operator) in Phones(prev) then prev else prev + [SummaryOf(m, operator)]
  }

  /**
   * The summaries name every counterparty of the messages, each exactly once,
   * and count no message as unread.
   */
  lemma {:induction false} SummariesOnePerCounterparty(ms: seq<Message>, operator: string)
    ensures var r := Summaries(ms, operator);
      && (forall p :: p in Phones(r) <==> p in Counterparties(ms, operator))
      && DistinctPhones(r)
      && (forall c :: c in r ==> c.unread_count == 0)
  {
    if ms != [] {
      var pre := ms[..|ms| - 1];
      var m := ms[|ms| - 1];
      var prev := Summaries(pre, operator);
      SummariesOnePerCounterparty(pre, operator);
      if Counterparty(m, operator) !in Phones(prev) {
        var r := prev + [SummaryOf(m, operator)];
        assert Phones(r) == Phones(prev) + [Counterparty(m, operator)];
        assert forall k :: 0 <= k < |prev| ==> prev[k].phone_number == Phones(prev)[k];
      }
    }
  }

  /** The list holds exactly one summary per counterparty. */
  lemma {:induction false} SummariesCount(ms: seq<Message>, operator: string)
    ensures |Summaries(ms, operator)| == |Counterparties(ms, operator)|
  {
    if ms != [] {
      var pre := ms[..|ms| - 1];
      var m := ms[|ms| - 1];
      SummariesCount(pre, operator);
      SummariesOnePerCounterparty(pre, operator);
    }
  }

  /** The index of the first message in `ms` whose counterparty is `p`. */
  function FirstIndex(ms: seq<Message>, p: string, operator: string): (i: nat)
    requires p in Counterparties(ms, operator)
    ensures i < |ms| && Counterparty(ms[i], operator) == p
  {
    var pre := ms[..|ms| - 1];
    if p in Counterparties(pre, operator) then
      var i := FirstIndex(pre, p, operator);
      assert ms[i] == pre[i];
      i
    else |pre|
  }

  /** No message before the first index has counterparty `p`. */
  lemma {:induction false} FirstIndexIsFirst(ms: seq<Message>, p: string, operator: string)
    requires p in Counterparties(ms, operator)
    ensures forall j :: 0 <= j < FirstIndex(ms, p, operator) ==> Counterparty(ms[j], operator) != p
  {
    var pre := ms[..|ms| - 1];
    if p in Counterparties(pre, operator) {
      FirstIndexIsFirst(pre, p, operator);
      assert forall j :: 0 <= j < |pre| ==> ms[j] == pre[j];
    } else {
      forall j | 0 <= j < |pre| ensures Counterparty(ms[j], operator) != p {
        CounterpartyIn(pre, j, operator);
        assert ms[j] == pre[j];
      }
    }
  }

  /** One step of the grouping loop, on the prefix `ms[..i]`. */
  lemma SummariesStep(ms: seq<Message>, i: nat, operator: string)
    requires i < |ms|
    ensures Summaries(ms[..i + 1], operator) ==
      var prev := Summaries(ms[..i], operator);
      if Counterparty(ms[i], operator) in Phones(prev) then prev else prev + [SummaryOf(ms[i], operator)]
  {
    assert ms[..i + 1][..i] == ms[..i];
  }

  /** Every summary is the one of its counterparty's first message. */
  lemma {:induction false} SummariesFirstSeen(ms: seq<Message>, operator: string)
    ensures forall c :: c in Summaries(ms, operator) ==>
      c.phone_number in Counterparties(ms, operator)
      && c == SummaryOf(ms[FirstIndex(ms, c.phone_number, operator)], operator)
  {
    if ms != [] {
      var pre := ms[..|ms| - 1];
      var m := ms[|ms| - 1];
      SummariesFirstSeen(pre, operator);
      SummariesOnePerCounterparty(pre, operator);
      var prev := Summaries(pre, operator);
      var r := Summaries(ms, operator);
      var p := Counterparty(m, operator);
      assert p in Counterparties(ms, operator);
      forall c | c in r
        ensures c.phone_number in Counterparties(ms, operator)
        ensures c == SummaryOf(ms[FirstIndex(ms, c.phone_number, operator)], operator)
      {
        if c in prev {
          var i := FirstIndex(pre, c.phone_number, operator);
          assert FirstIndex(ms, c.phone_number, operator) == i;
          assert ms[i] == pre[i];
        } else {
          assert p !in Phones(prev) && r == prev + [SummaryOf(m, operator)];
          assert c == SummaryOf(m, operator);
          assert p !in Counterparties(pre, operator);
          assert FirstIndex(ms, p, operator) == |pre|;
        }
      }
    }
  }

  /** Each summary's number is a counterparty of the messages. */
  lemma SummaryPhoneIsCounterparty(ms: seq<Message>, k: nat, operator: string)
    requires k < |Summaries(ms, operator)|
    ensures Summaries(ms, operator)[k].phone_number in Counterparties(ms, operator)
  {
    SummariesOnePerCounterparty(ms, operator);
    assert Phones(Summaries(ms, operator))[k] == Summaries(ms, operator)[k].phone_number;
  }

  /** Of two summaries, the earlier one's counterparty was seen first. */
  lemma {:induction false} SummariesOrderedPair(ms: seq<Message>, k: nat, l: nat, operator: string)
    requires k < l < |Summaries(ms, operator)|
    ensures Summaries(ms, operator)[k].phone_number in Counterparties(ms, operator)
    ensures Summaries(ms, operator)[l].phone_number in Counterparties(ms, operator)
    ensures FirstIndex(ms, Summaries(ms, operator)[k].phone_number, operator)
      < FirstIndex(ms, Summaries(ms, operator)[l].phone_number, operator)
  {
    var pre := ms[..|ms| - 1];
    var m := ms[|ms| - 1];
    var prev := Summaries(pre, operator);
    var r := Summaries(ms, operator);
    assert r == prev || r == prev + [SummaryOf(m, operator)];
    var pk := r[k].phone_number;
    var pl := r[l].phone_number;
    assert r[k] == prev[k];
    SummaryPhoneIsCounterparty(pre, k, operator);
    assert FirstIndex(ms, pk, operator) == FirstIndex(pre, pk, operator) < |pre|;
    if l < |prev| {
      assert r[l] == prev[l];
      SummariesOrderedPair(pre, k, l, operator);
      assert FirstIndex(ms, pl, operator) == FirstIndex(pre, pl, operator);
    } else {
      SummariesOnePerCounterparty(pre, operator);
      assert r[l] == SummaryOf(m, operator);
      assert pl == Counterparty(m, operator) && pl !in Phones(prev);
      assert FirstIndex(ms, pl, operator) == |pre|;
    }
  }

  /** Both numbers are counterparties of `ms`, and `p` was seen before `q`. */
  predicate SeenBefore(ms: seq<Message>, p: string, q: string, operator: string) {
    && p in Counterparties(ms, operator)
    && q in Counterparties(ms, operator)
    && FirstIndex(ms, p, operator) < FirstIndex(ms, q, operator)
  }

  /** The summaries are in the order their counterparties were first seen. */
  lemma SummariesInFirstSeenOrder(ms: seq<Message>, operator: string)
    ensures forall k, l :: 0 <= k < l < |Summaries(ms, operator)| ==>
      SeenBefore(ms, Summaries(ms, operator)[k].phone_number, Summaries(ms, operator)[l].phone_number, operator)
  {
    var r := Summaries(ms, operator);
    forall k, l | 0 <= k < l < |r|
      ensures SeenBefore(ms, r[k].phone_number, r[l].phone_number, operator)
    {
      SummariesOrderedPair(ms, k, l, operator);
    }
  }

  /** Older messages added at the end of the log never change the summaries already built. */
  lemma {:induction false} SummariesPrefix(ms: seq<Message>, more: seq<Message>, operator: string)
    ensures Summaries(ms, operator) <= Summaries(ms + more, operator)
    decreases |more|
  {
    if more == [] {
      assert ms + more == ms;
    } else {
      var shorter := more[..|more| - 1];
      assert (ms + more)[..|ms + more| - 1] == ms + shorter;
      SummariesPrefix(ms, shorter, operator);
    }
  }

  /** A message for a counterparty that already has a summary changes nothing. */
  lemma SummariesIgnoresRepeat(ms: seq<Message>, m: Message, operator: string)
    requires Counterparty(m, operator) in Counterparties(ms, operator)
    ensures Summaries(ms + [m], operator) == Summaries(ms, operator)
  {
    assert (ms + [m])[..|ms|] == ms;
    SummariesOnePerCounterparty(ms, operator);
  }

  /**
   * On a newest-first log the summaries come out newest first, and each one
   * carries the latest message of its counterparty.
   */
  lemma SummariesNewestFirst(ms: seq<Message>, operator: string)
    requires NonIncreasing(ms, CreatedAt)
    ensures NonIncreasing(Summaries(ms, operator), LastMessageAt)
    ensures forall c, i ::
      (c in Summaries(ms, operator) && 0 <= i < |ms| && Counterparty(ms[i], operator) == c.phone_number)
      ==> ms[i].created_at <= c.last_message_at
  {
    var r := Summaries(ms, operator);
    SummariesFirstSeen(ms, operator);
    SummariesInFirstSeenOrder(ms, operator);
    forall k, l | 0 <= k < l < |r| ensures LastMessageAt(r[k]) >= LastMessageAt(r[l]) {
      assert r[k] in r && r[l] in r;
    }
    forall c, i | c in r && 0 <= i < |ms| && Counterparty(ms[i], operator) == c.phone_number
      ensures ms[i].created_at <= c.last_message_at
    {
      var f := FirstIndex(ms, c.phone_number, operator);
      FirstIndexIsFirst(ms, c.phone_number, operator);
      assert f <= i;
      assert CreatedAt(ms[f]) >= CreatedAt(ms[i]) || f == i;
    }
  }

  /** The list the handler returns for the table `table`. */
  function ConversationList(table: seq<Message>, operator: string): seq<Conversation> {
    SortDesc(Summaries(SortDesc(table, CreatedAt), operator), LastMessageAt)
  }

  /**
   * The final sort changes nothing: the log is read newest first, so the list
   * already is, and the stable sort keeps the first-seen order.
   */
  lemma ConversationListIsFirstSeenOrder(table: seq<Message>, operator: string)
    ensures ConversationList(table, operator) == Summaries(SortDesc(table, CreatedAt), operator)
  {
    var ms := SortDesc(table, CreatedAt);
    SummariesNewestFirst(ms, operator);
    SortDescOfSorted(Summaries(ms, operator), LastMessageAt);
  }

  lemma SameCounterparties(table: seq<Message>, operator: string)
    ensures Counterparties(SortDesc(table, CreatedAt), operator) == Counterparties(table, operator)
  {
    SortDescSameElements(table, CreatedAt);
    CounterpartiesOfMessages(table, operator);
    CounterpartiesOfMessages(SortDesc(table, CreatedAt), operator);
  }

  /**
   * One conversation per distinct counterparty of the table, none missing, no
   * duplicates, all with no unread messages.
   */
  lemma ConversationListOnePerCounterparty(table: seq<Message>, operator: string)
    ensures var r := ConversationList(table, operator);
      && (forall p :: p in Phones(r) <==> p in Counterparties(table, operator))
      && DistinctPhones(r)
      && |r| == |Counterparties(table, operator)|
      && (forall c :: c in r ==> c.unread_count == 0)
  {
    ConversationListIsFirstSeenOrder(table, operator);
    SameCounterparties(table, operator);
    SummariesOnePerCounterparty(SortDesc(table, CreatedAt), operator);
    SummariesCount(SortDesc(table, CreatedAt), operator);
  }

  /**
   * Each conversation is the summary of a message of the table with that
   * counterparty, and no message with that counterparty is more recent.
   */
  lemma ConversationListLatest(table: seq<Message>, operator: string)
    ensures forall c :: c in ConversationList(table, operator) ==>
      && (exists m :: m in table && c == SummaryOf(m, operator))
      && (forall m :: m in table && Counterparty(m, operator) == c.phone_number ==>
            m.created_at <= c.last_message_at)
  {
    var ms := SortDesc(table, CreatedAt);
    ConversationListIsFirstSeenOrder(table, operator);
    SummariesFirstSeen(ms, operator);
    SummariesNewestFirst(ms, operator);
    SortDescSameElements(table, CreatedAt);
    forall c | c in ConversationList(table, operator)
      ensures exists m :: m in table && c == SummaryOf(m, operator)
      ensures forall m :: m in table && Counterparty(m, operator) == c.phone_number ==>
        m.created_at <= c.last_message_at
    {
      var f := FirstIndex(ms, c.phone_number, operator);
      assert ms[f] in ms;
      forall m | m in table && Counterparty(m, operator) == c.phone_number
        ensures m.created_at <= c.last_message_at
      {
        assert m in ms;
        var i :| 0 <= i < |ms| && ms[i] == m;
      }
    }
  }

  lemma ConversationListOfEmptyLog(operator: string)
    ensures ConversationList([], operator) == []
  {
  }

  /** The list is as long as the table has counterparties. */
  lemma ConversationListCount(table: seq<Message>, operator: string)
    ensures |ConversationList(table, operator)| == |Counterparties(table, operator)|
  {
    ConversationListIsFirstSeenOrder(table, operator);
    SameCounterparties(table, operator);
    SummariesCount(SortDesc(table, CreatedAt), operator);
  }

  /**
   * Numbers are not normalised: the same person written `+18327905001` and
   * `8327905001` gets two conversations.
   */
  lemma RawNumbersNotMerged(a: Message, b: Message, operator: string)
    requires a.from_number == "+18327905001" && b.from_number == "8327905001"
    requires operator != a.from_number && operator != b.from_number
    ensures |ConversationList([a, b], operator)| == 2
  {
    ConversationListCount([a, b], operator);
    CounterpartiesOfPair(a, b, operator);
    assert {a.from_number, b.from_number} == {a.from_number} + {b.from_number};
  }

  lemma CounterpartiesOfPair(a: Message, b: Message, operator: string)
    ensures Counterparties([a, b], operator) == {Counterparty(a, operator), Counterparty(b, operator)}
  {
    assert Counterparties([a], operator) == {Counterparty(a, operator)} by {
      assert [a][..0] == [];
    }
    assert [a, b][..|[a, b]| - 1] == [a];
  }

  /** The response body: an error or the conversation list. */
  datatype Body = Failure(error: string) | Listed(conversations: seq<Conversation>)

  /** The values of the map `byNumber` for the keys `order`, in that order. */
  function Values(order: seq<string>, byNumber: map<string, Conversation>): (r: seq<Conversation>)
    requires forall p :: p in order ==> p in byNumber
    ensures |r| == |order|
  {
    seq(|order|, k requires 0 <= k < |order| => byNumber[order[k]])
  }

  /** When every summary is filed under its own number, the values list the keys' numbers. */
  lemma PhonesOfValues(order: seq<string>, byNumber: map<string, Conversation>)
    requires forall p :: p in order ==> p in byNumber
    requires forall p :: p in byNumber ==> byNumber[p].phone_number == p
    ensures Phones(Values(order, byNumber)) == order
  {
  }

  /** Filing a summary under a new key appends it to the values. */
  lemma ValuesAppend(order: seq<string>, byNumber: map<string, Conversation>, p: string, c: Conversation)
    requires forall q :: q in order ==> q in byNumber
    requires p !in order
    ensures Values(order + [p], byNumber[p := c]) == Values(order, byNumber) + [c]
  {
    var after := Values(order + [p], byNumber[p := c]);
    forall k | 0 <= k < |order| ensures after[k] == Values(order, byNumber)[k] {
      assert (order + [p])[k] == order[k] != p;
    }
  }

  /**
   * One iteration of the handler's loop over the map: a number already filed
   * leaves the map as it is, a new one files the summary of the message, and
   * either way the values are the summaries of one more message.
   */
  lemma FoldStep(messages: seq<Message>, i: nat, order: seq<string>, byNumber: map<string, Conversation>, operator: string)
    requires i < |messages|
    requires forall p :: p in order <==> p in byNumber
    requires forall p :: p in byNumber ==> byNumber[p].phone_number == p
    requires Values(order, byNumber) == Summaries(messages[..i], operator)
    ensures Counterparty(messages[i], operator) in byNumber ==>
      Values(order, byNumber) == Summaries(messages[..i + 1], operator)
    ensures Counterparty(messages[i], operator) !in byNumber ==>
      && (forall q :: q in order ==> q in byNumber)
      && Values(order + [Counterparty(messages[i], operator)],
                byNumber[Counterparty(messages[i], operator) := SummaryOf(messages[i], operator)])
         == Summaries(messages[..i + 1], operator)
  {
    var p := Counterparty(messages[i], operator);
    var prev := Summaries(messages[..i], operator);
    PhonesOfValues(order, byNumber);
    assert Phones(prev) == order;
    SummariesStep(messages, i, operator);
    if p !in byNumber {
      ValuesAppend(order, byNumber, p, SummaryOf(messages[i], operator));
    }
  }

  /**
   * The `GET` handler as evidently intended, with the query made through the
   * server's store client (`getSupabaseAdmin()`, as in the other routes), whose
   * outcome is `store`. A store error gives 500; otherwise the log, ordered newest
   * first, is folded into an insertion-ordered map from counterparty to summary
   * (the first message seen for a number wins), and the values are sorted newest
   * first.
   */
  method Get(store: StoreOutcome, operator: string) returns (response: Response<Body>)
    ensures store.StoreError? ==> response == Response(500, Failure("Failed to fetch conversations"))
    ensures store.Rows? ==> response == Response(200, Listed(ConversationList(store.rows, operator)))
  {
    if store.StoreError? {
      return Response(500, Failure("Failed to fetch conversations"));
    }
    var messages := SortDesc(store.rows, CreatedAt);
    var order: seq<string> := [];
    var byNumber: map<string, Conversation> := map[];
    var i := 0;
    while i < |messages|
      invariant 0 <= i <= |messages|
      invariant forall p :: p in order <==> p in byNumber
      invariant forall p :: p in byNumber ==> byNumber[p].phone_number == p
      invariant Values(order, byNumber) == Summaries(messages[..i], operator)
    {
      var msg := messages[i];
      var otherNumber := if msg.from_number == operator then msg.to_number else msg.from_number;
      assert otherNumber == Counterparty(msg, operator);
      FoldStep(messages, i, order, byNumber, operator);
      if otherNumber !in byNumber {
        var summary := Conversation(otherNumber, msg.body, msg.created_at, 0);
        assert summary == SummaryOf(msg, operator);
        byNumber := byNumber[otherNumber := summary];
        order := order + [otherNumber];
      }
      i := i + 1;
    }
    assert messages[..i] == messages;
    var conversations := SortDesc(Values(order, byNumber), LastMessageAt);
    return Response(200, Listed(conversations));
  }

  /**
   * The `GET` handler as written. It queries through `supabaseAdmin`, a name that
   * lib/supabase/server.ts does not export (it exports only `getSupabaseAdmin`),
   * so the binding is `undefined` and `.from(...)` throws a `TypeError` before any
   * query is made. The `catch` turns that into 500 `Internal server error`, so no
   * table's conversation list is ever returned.
   */
  method GetAsWritten(operator: string) returns (response: Response<Body>)
    ensures response == Response(500, Failure("Internal server error"))
    ensures forall table :: response != Response(200, Listed(ConversationList(table, operator)))
  {
    // `supabaseAdmin.from(...)` on the `undefined` binding throws; the catch answers.
    response := Response(500, Failure("Internal server error"));
  }
}
