/**
 * `GET /api/messages` (app/api/messages/route.ts): the messages of one thread,
 * newest first, at most `limit` of them. The store applies the filter first, then
 * the order, then the limit; the filter compares both numbers of a message with
 * the requested number exactly, as raw strings.
 */
module MessagesRoute {
  import opened Types
  import opened Sorting

  /** The page size when the `limit` parameter is absent or empty. */
  const DefaultLimit: nat := 50

  /** `parseInt(limit || '50')`, for a parameter that is absent, empty or a number. */
  function EffectiveLimit(limitParam: Option<nat>): (n: nat)
    ensures limitParam.Some? ==> n == limitParam.value
    ensures limitParam.None? ==> n == 50
  {
    if limitParam.Some? then limitParam.value else DefaultLimit
  }

  /** The message was sent from or to `phone`. */
  predicate Involves(m: Message, phone: string) {
    m.from_number == phone || m.to_number == phone
  }

  /** The rows of a thread: those involving `phone`, as often as they occur, in table order. */
  function Matching(ms: seq<Message>, phone: string): (r: seq<Message>)
    ensures |r| <= |ms|
    ensures forall m :: multiset(r)[m] == if Involves(m, phone) then multiset(ms)[m] else 0
  {
    if ms == [] then []
    else
      assert ms == [ms[0]] + ms[1..];
      (if Involves(ms[0], phone) then [ms[0]] else []) + Matching(ms[1..], phone)
  }

  /** What the query orders and limits: the thread when a number is given, the whole table otherwise. */
  function Candidates(rows: seq<Message>, phoneNumber: Option<string>): seq<Message> {
    if Truthy(phoneNumber) then Matching(rows, phoneNumber.value) else rows
  }

  function Min(a: nat, b: nat): nat {
    if a < b then a else b
  }

  /** The rows the query returns: the candidates newest first, cut at the limit. */
  function Thread(rows: seq<Message>, phoneNumber: Option<string>, limitParam: Option<nat>): seq<Message> {
    var sorted := SortDesc(Candidates(rows, phoneNumber), CreatedAt);
    sorted[..Min(EffectiveLimit(limitParam), |sorted|)]
  }

  /** With a number, every returned message is from or to exactly that number, and comes from the table. */
  lemma ThreadMatches(rows: seq<Message>, phoneNumber: Option<string>, limitParam: Option<nat>)
    ensures forall m :: m in Thread(rows, phoneNumber, limitParam) ==>
      && multiset(rows)[m] > 0
      && (Truthy(phoneNumber) ==> Involves(m, phoneNumber.value))
  {
    var cands := Candidates(rows, phoneNumber);
    var sorted := SortDesc(cands, CreatedAt);
    var r := Thread(rows, phoneNumber, limitParam);
    forall m | m in r
      ensures multiset(rows)[m] > 0
      ensures Truthy(phoneNumber) ==> Involves(m, phoneNumber.value)
    {
      assert m in sorted;
      assert m in multiset(sorted);
      assert multiset(cands)[m] > 0;
    }
  }

  /** Without a number (absent or empty) nothing is filtered out. */
  lemma ThreadUnfiltered(rows: seq<Message>, phoneNumber: Option<string>, limitParam: Option<nat>)
    requires !Truthy(phoneNumber)
    ensures var all := SortDesc(rows, CreatedAt);
      Thread(rows, phoneNumber, limitParam) == all[..Min(EffectiveLimit(limitParam), |rows|)]
  {
    assert |SortDesc(rows, CreatedAt)| == |rows| by {
      assert |multiset(SortDesc(rows, CreatedAt))| == |multiset(rows)|;
    }
  }

  /** The result holds `limit` messages, or all candidates when there are fewer; 50 by default. */
  lemma ThreadLength(rows: seq<Message>, phoneNumber: Option<string>, limitParam: Option<nat>)
    ensures |Thread(rows, phoneNumber, limitParam)|
      == Min(EffectiveLimit(limitParam), |Candidates(rows, phoneNumber)|)
    ensures |Thread(rows, phoneNumber, limitParam)| <= EffectiveLimit(limitParam)
    ensures limitParam.None? ==> |Thread(rows, phoneNumber, limitParam)| <= 50
  {
    var cands := Candidates(rows, phoneNumber);
    assert |SortDesc(cands, CreatedAt)| == |cands| by {
      assert |multiset(SortDesc(cands, CreatedAt))| == |multiset(cands)|;
    }
  }

  /** The result is newest first (not oldest first). */
  lemma ThreadNewestFirst(rows: seq<Message>, phoneNumber: Option<string>, limitParam: Option<nat>)
    ensures NonIncreasing(Thread(rows, phoneNumber, limitParam), CreatedAt)
  {
    var sorted := SortDesc(Candidates(rows, phoneNumber), CreatedAt);
    var r := Thread(rows, phoneNumber, limitParam);
    forall i, j | 0 <= i < j < |r| ensures CreatedAt(r[i]) >= CreatedAt(r[j]) {
      assert r[i] == sorted[i] && r[j] == sorted[j];
    }
  }

  /**
   * Cutting a newest-first sequence at `k`: an element that loses a copy to the
   * cut lies beyond `k`, so the prefix is all of length `k` and none of it is older.
   */
  lemma {:induction false} CutKeepsNewest(sorted: seq<Message>, k: nat, m: Message)
    requires NonIncreasing(sorted, CreatedAt) && k <= |sorted|
    requires multiset(sorted[..k])[m] < multiset(sorted)[m]
    ensures k < |sorted|
    ensures forall x :: x in sorted[..k] ==> m.created_at <= x.created_at
  {
    assert sorted == sorted[..k] + sorted[k..];
    assert multiset(sorted) == multiset(sorted[..k]) + multiset(sorted[k..]);
    assert m in multiset(sorted[k..]);
    assert m in sorted[k..];
    var j :| k <= j < |sorted| && sorted[j] == m;
    forall x | x in sorted[..k] ensures m.created_at <= x.created_at {
      var i :| 0 <= i < k && sorted[..k][i] == x;
      assert sorted[i] == x;
      assert CreatedAt(sorted[i]) >= CreatedAt(sorted[j]);
    }
  }

  /**
   * The limit is applied after the filter: a candidate that is left out (one of
   * its copies, for a repeated row) means the result is full, and no returned
   * message is older than it.
   */
  lemma ThreadKeepsNewest(rows: seq<Message>, phoneNumber: Option<string>, limitParam: Option<nat>, m: Message)
    requires multiset(Thread(rows, phoneNumber, limitParam))[m] < multiset(Candidates(rows, phoneNumber))[m]
    ensures |Thread(rows, phoneNumber, limitParam)| == EffectiveLimit(limitParam)
    ensures forall x :: x in Thread(rows, phoneNumber, limitParam) ==> m.created_at <= x.created_at
  {
    var sorted := SortDesc(Candidates(rows, phoneNumber), CreatedAt);
    var k := Min(EffectiveLimit(limitParam), |sorted|);
    CutKeepsNewest(sorted, k, m);
  }

  /** The response body: an error or the thread. */
  datatype Body = Failure(error: string) | Listed(messages: seq<Message>)

  /** The `GET` handler: a store error gives 500, otherwise the thread. */
  function Get(store: StoreOutcome, phoneNumber: Option<string>, limitParam: Option<nat>): (response: Response<Body>)
    ensures store.StoreError? ==> response == Response(500, Failure("Failed to fetch messages"))
    ensures store.Rows? ==> response == Response(200, Listed(Thread(store.rows, phoneNumber, limitParam)))
  {
    match store
    case StoreError(_) => Response(500, Failure("Failed to fetch messages"))
    case Rows(rows) => Response(200, Listed(Thread(rows, phoneNumber, limitParam)))
  }
}
