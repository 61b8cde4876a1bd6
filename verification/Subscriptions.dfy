/** The subscription book: one entry per event, dropped when a read finds it expired. */
module Subscriptions {
  import opened Results

  const TWO_32 := 0x1_0000_0000
  const NANOS := 1_000_000_000

  datatype SubscribeEvent = Catalog | Alarm | MobilePosition

  datatype Dialog = Dialog(peer: string, from: string, to: string, callId: string)

  /** Instants are nanoseconds on the monotonic clock. */
  datatype Entry = Entry(expiresAt: int, dialog: Dialog, nextCseq: nat)

  datatype Live = Live(dialog: Dialog, cseq: nat, remaining: nat)

  type Book = map<SubscribeEvent, Entry>

  function Granted(expiresSecs: nat): nat {
    Max(expiresSecs, 1)
  }

  function Subscribed(now: int, expiresSecs: nat, dialog: Dialog, cseqBase: nat): Entry {
    Entry(now + Granted(expiresSecs) * NANOS, dialog, (cseqBase + 1) % TWO_32)
  }

  function Remaining(expiresAt: int, now: int): nat {
    Max(Max(expiresAt - now, 0) / NANOS, 1)
  }

  function Without(book: Book, event: SubscribeEvent): Book {
    map e | e in book && e != event :: book[e]
  }

  class SubscriptionRegistry {
    var book: Book
    var sn: nat

    constructor ()
      ensures book == map[] && sn == 0
    {
      book := map[];
      sn := 0;
    }

    method Upsert(now: int, event: SubscribeEvent, expiresSecs: nat, dialog: Dialog, cseqBase: nat)
      modifies this
      ensures book == old(book)[event := Subscribed(now, expiresSecs, dialog, cseqBase)] && sn == old(sn)
    {
      book := book[event := Subscribed(now, expiresSecs, dialog, cseqBase)];
    }

    method Active(now: int, event: SubscribeEvent) returns (live: Option<Live>)
      modifies this
      ensures (book, live) == ReadActive(old(book), now, event) && sn == old(sn)
    {
      if event !in book {
        return None;
      }
      var sub := book[event];
      if sub.expiresAt <= now {
        book := Without(book, event);
        return None;
      }
      var cseq := sub.nextCseq;
      sub := sub.(nextCseq := (sub.nextCseq + 1) % TWO_32);
      book := book[event := sub];
      live := Some(Live(sub.dialog, cseq, Remaining(sub.expiresAt, now)));
    }

    method IsActive(now: int, event: SubscribeEvent) returns (active: bool)
      modifies this
      ensures (book, active) == ReadIsActive(old(book), now, event) && sn == old(sn)
    {
      if event !in book {
        return false;
      }
      if book[event].expiresAt > now {
        return true;
      }
      book := Without(book, event);
      active := false;
    }

    method NextSn() returns (n: nat)
      modifies this
      ensures book == old(book) && n == sn == (old(sn) + 1) % TWO_32
    {
      n := (sn + 1) % TWO_32;
      sn := n;
    }
  }

  function ReadActive(book: Book, now: int, event: SubscribeEvent): (Book, Option<Live>) {
    if event !in book then (book, None)
    else if book[event].expiresAt <= now then (Without(book, event), None)
    else
      var sub := book[event];
      (book[event := sub.(nextCseq := (sub.nextCseq + 1) % TWO_32)],
       Some(Live(sub.dialog, sub.nextCseq, Remaining(sub.expiresAt, now))))
  }

  function ReadIsActive(book: Book, now: int, event: SubscribeEvent): (Book, bool) {
    if event !in book then (book, false)
    else if book[event].expiresAt > now then (book, true)
    else (Without(book, event), false)
  }

  // --- Call sequences ---

  datatype Operation =
    | Upsert(event: SubscribeEvent, expiresSecs: nat, dialog: Dialog, cseqBase: nat)
    | Active(event: SubscribeEvent)
    | IsActive(event: SubscribeEvent)
    | NextSn

  datatype Call = Call(at: int, op: Operation)

  datatype Reply = Nothing | Found(live: Option<Live>) | Flag(active: bool) | Number(n: nat)

  datatype Registry = Registry(book: Book, sn: nat)

  /** What the registry does and answers. */
  function Serve(r: Registry, call: Call): (Registry, Reply) {
    match call.op
    case Upsert(event, expiresSecs, dialog, cseqBase) =>
      (r.(book := r.book[event := Subscribed(call.at, expiresSecs, dialog, cseqBase)]), Nothing)
    case Active(event) =>
      var (book, live) := ReadActive(r.book, call.at, event);
      (r.(book := book), Found(live))
    case IsActive(event) =>
      var (book, active) := ReadIsActive(r.book, call.at, event);
      (r.(book := book), Flag(active))
    case NextSn => (r.(sn := (r.sn + 1) % TWO_32), Number((r.sn + 1) % TWO_32))
  }

  function Replies(r: Registry, calls: seq<Call>): seq<Reply>
    decreases |calls|
  {
    if calls == [] then []
    else
      var (next, reply) := Serve(r, calls[0]);
      [reply] + Replies(next, calls[1..])
  }

  /** The clock never goes back. */
  predicate Ordered(calls: seq<Call>) {
    forall i, j :: 0 <= i < j < |calls| ==> calls[i].at <= calls[j].at
  }

  // --- The eager book ---

  /** The entries that have not expired. */
  function LiveAt(book: Book, now: int): Book {
    map e | e in book && book[e].expiresAt > now :: book[e]
  }

  /** A book that holds live subscriptions only: expired ones leave before the call, and no read ever checks a clock. */
  function ServeEagerly(r: Registry, call: Call): (Registry, Reply) {
    var book := LiveAt(r.book, call.at);
    match call.op
    case Upsert(event, expiresSecs, dialog, cseqBase) =>
      (r.(book := book[event := Subscribed(call.at, expiresSecs, dialog, cseqBase)]), Nothing)
    case Active(event) =>
      if event !in book then (r.(book := book), Found(None))
      else
        var sub := book[event];
        (r.(book := book[event := sub.(nextCseq := (sub.nextCseq + 1) % TWO_32)]),
         Found(Some(Live(sub.dialog, sub.nextCseq, Remaining(sub.expiresAt, call.at)))))
    case IsActive(event) => (r.(book := book), Flag(event in book))
    case NextSn => (r.(book := book, sn := (r.sn + 1) % TWO_32), Number((r.sn + 1) % TWO_32))
  }

  function EagerReplies(r: Registry, calls: seq<Call>): seq<Reply>
    decreases |calls|
  {
    if calls == [] then []
    else
      var (next, reply) := ServeEagerly(r, calls[0]);
      [reply] + EagerReplies(next, calls[1..])
  }

  /** The eager book is what is live of the lazy one. */
  predicate Prunes(eager: Registry, lazy: Registry, now: int) {
    LiveAt(lazy.book, now) == LiveAt(eager.book, now) && lazy.sn == eager.sn
  }

  lemma PrunesLater(eager: Registry, lazy: Registry, now: int, later: int)
    requires Prunes(eager, lazy, now) && now <= later
    ensures Prunes(eager, lazy, later)
  {
    var l, e := LiveAt(lazy.book, later), LiveAt(eager.book, later);
    assert l == LiveAt(LiveAt(lazy.book, now), later);
    assert e == LiveAt(LiveAt(eager.book, now), later);
  }

  lemma ServesAlike(eager: Registry, lazy: Registry, call: Call)
    requires Prunes(eager, lazy, call.at)
    ensures Serve(lazy, call).1 == ServeEagerly(eager, call).1
    ensures Prunes(ServeEagerly(eager, call).0, Serve(lazy, call).0, call.at)
  {
    var l, e := LiveAt(lazy.book, call.at), LiveAt(eager.book, call.at);
    assert LiveAt(e, call.at) == e;
    var l', e' := LiveAt(Serve(lazy, call).0.book, call.at), LiveAt(ServeEagerly(eager, call).0.book, call.at);
    match call.op
    case Upsert(event, _, _, _) =>
      assert forall k :: k in l' <==> k in e';
    case Active(event) =>
      assert event in l <==> event in lazy.book && lazy.book[event].expiresAt > call.at;
      assert forall k :: k in l' <==> k in e';
    case IsActive(event) =>
      assert event in l <==> event in lazy.book && lazy.book[event].expiresAt > call.at;
      assert forall k :: k in l' <==> k in e';
    case NextSn =>
  }

  /** Dropping entries only when they are read answers every call like dropping them when they expire. */
  lemma {:induction false} LazyAnswersLikeEager(lazy: Registry, eager: Registry, now: int, calls: seq<Call>)
    requires Ordered(calls) && Prunes(eager, lazy, now)
    requires calls != [] ==> now <= calls[0].at
    ensures Replies(lazy, calls) == EagerReplies(eager, calls)
    decreases |calls|
  {
    if calls != [] {
      PrunesLater(eager, lazy, now, calls[0].at);
      ServesAlike(eager, lazy, calls[0]);
      hide Serve, ServeEagerly, Prunes;
      LazyAnswersLikeEager(Serve(lazy, calls[0]).0, ServeEagerly(eager, calls[0]).0, calls[0].at, calls[1..]);
    }
  }

  /** From the empty book on. */
  lemma BookExpiresEagerly(calls: seq<Call>)
    requires Ordered(calls)
    ensures Replies(Registry(map[], 0), calls) == EagerReplies(Registry(map[], 0), calls)
  {
    if calls != [] {
      LazyAnswersLikeEager(Registry(map[], 0), Registry(map[], 0), calls[0].at, calls);
    }
  }

  // --- One subscription ---

  /** How many notifications for the event are asked for in these calls. */
  function Asked(calls: seq<Call>, event: SubscribeEvent): nat {
    if calls == [] then 0
    else (if calls[|calls| - 1].op == Active(event) then 1 else 0) + Asked(calls[..|calls| - 1], event)
  }

  predicate NotRenewed(calls: seq<Call>, event: SubscribeEvent) {
    forall i :: 0 <= i < |calls| ==> !(calls[i].op.Upsert? && calls[i].op.event == event)
  }

  lemma {:induction false} AskedFront(calls: seq<Call>, event: SubscribeEvent)
    requires calls != []
    ensures Asked(calls, event) == (if calls[0].op == Active(event) then 1 else 0) + Asked(calls[1..], event)
  {
    if |calls| > 1 {
      assert calls[..|calls| - 1][1..] == calls[1..][..|calls| - 2];
      AskedFront(calls[..|calls| - 1], event);
    }
  }

  lemma {:induction false} AbsentStaysAbsent(r: Registry, calls: seq<Call>, event: SubscribeEvent, i: nat)
    requires NotRenewed(calls, event) && event !in r.book && i < |calls|
    ensures |Replies(r, calls)| == |calls|
    ensures calls[i].op == Active(event) ==> Replies(r, calls)[i] == Found(None)
    ensures calls[i].op == IsActive(event) ==> Replies(r, calls)[i] == Flag(false)
    decreases |calls|
  {
    var next := Serve(r, calls[0]).0;
    assert event !in next.book;
    if |calls| > 1 {
      AbsentStaysAbsent(next, calls[1..], event, if i == 0 then 0 else i - 1);
    } else {
      assert calls[1..] == [];
    }
  }

  lemma {:induction false} RepliesCount(r: Registry, calls: seq<Call>)
    ensures |Replies(r, calls)| == |calls|
    decreases |calls|
  {
    if calls != [] {
      RepliesCount(Serve(r, calls[0]).0, calls[1..]);
    }
  }

  /** The answer to a question about a subscription after so many notifications were asked for. */
  predicate AnswerFits(sub: Entry, asked: nat, call: Call, event: SubscribeEvent, reply: Reply) {
    && (call.op == Active(event) ==>
          reply == Found(
            if call.at < sub.expiresAt then
              Some(Live(sub.dialog, (sub.nextCseq + asked) % TWO_32, Remaining(sub.expiresAt, call.at)))
            else None))
    && (call.op == IsActive(event) ==> reply == Flag(call.at < sub.expiresAt))
  }

  lemma EntryAfter(r: Registry, call: Call, event: SubscribeEvent)
    requires event in r.book && r.book[event].nextCseq < TWO_32
    requires !(call.op.Upsert? && call.op.event == event)
    ensures
      var sub, next := r.book[event], Serve(r, call).0;
      && AnswerFits(sub, 0, call, event, Serve(r, call).1)
      && (event !in next.book ==> sub.expiresAt <= call.at)
      && (event in next.book ==>
            next.book[event]
            == if call.op == Active(event) then sub.(nextCseq := (sub.nextCseq + 1) % TWO_32) else sub)
  {
  }

  /** While a subscription lasts, every question about it has one answer, set by its deadline and its place in line. */
  lemma {:induction false} EntryDeterminesReplies(r: Registry, calls: seq<Call>, event: SubscribeEvent, i: nat)
    requires Ordered(calls) && NotRenewed(calls, event) && i < |calls|
    requires event in r.book && r.book[event].nextCseq < TWO_32
    ensures |Replies(r, calls)| == |calls|
    ensures AnswerFits(r.book[event], Asked(calls[..i], event), calls[i], event, Replies(r, calls)[i])
    decreases |calls|
  {
    RepliesCount(r, calls);
    EntryAfter(r, calls[0], event);
    if i > 0 {
      var next := Serve(r, calls[0]).0;
      AskedFront(calls[..i], event);
      assert calls[..i][1..] == calls[1..][..i - 1];
      assert calls[0].at <= calls[i].at;
      var asked := Asked(calls[1..][..i - 1], event);
      hide Serve, Asked;
      assert NotRenewed(calls[1..], event) && Ordered(calls[1..]);
      assert Replies(r, calls)[i] == Replies(next, calls[1..])[i - 1];
      hide NotRenewed, Ordered, Replies;
      if event in next.book {
        EntryDeterminesReplies(next, calls[1..], event, i - 1);
        WrapsOnce(r.book[event].nextCseq, asked);
      } else {
        AbsentStaysAbsent(next, calls[1..], event, i - 1);
      }
    }
  }

  lemma WrapsOnce(c: nat, k: nat)
    ensures ((c + 1) % TWO_32 + k) % TWO_32 == (c + (k + 1)) % TWO_32
  {
  }

  /** Whole seconds left of a lifetime in nanoseconds, but at least one. */
  predicate SecondsLeft(left: int, seconds: nat) {
    if left < 1_000_000_000 then seconds == 1
    else seconds * 1_000_000_000 <= left < (seconds + 1) * 1_000_000_000
  }

  lemma RemainingIsLeft(expiresAt: int, now: int)
    requires now < expiresAt
    ensures SecondsLeft(expiresAt - now, Remaining(expiresAt, now))
  {
  }

  /**
   * A subscription for so many seconds, or for one if none are asked for, answers until its deadline and not from then
   * on; its CSeqs run base + 1, base + 2 and so on modulo 2^32, and the lifetime it advertises is what is left of it in
   * whole seconds, one at the least.
   */
  lemma SubscriptionAnswers(
    r: Registry, at: int, event: SubscribeEvent, expiresSecs: nat, dialog: Dialog, cseqBase: nat, calls: seq<Call>,
    i: nat)
    requires Ordered(calls) && NotRenewed(calls, event) && i < |calls| && at <= calls[0].at
    ensures |Replies(r, [Call(at, Upsert(event, expiresSecs, dialog, cseqBase))] + calls)| == 1 + |calls|
    ensures
      var reply := Replies(r, [Call(at, Upsert(event, expiresSecs, dialog, cseqBase))] + calls)[1 + i];
      var deadline := at + (if expiresSecs == 0 then 1 else expiresSecs) * 1_000_000_000;
      var live := calls[i].at < deadline;
      && (calls[i].op == IsActive(event) ==> reply == Flag(live))
      && (calls[i].op == Active(event) ==>
            && reply.Found? && (reply.live.Some? <==> live)
            && (live ==>
                  && reply.live.value.dialog == dialog
                  && reply.live.value.cseq == (cseqBase + 1 + Asked(calls[..i], event)) % 0x1_0000_0000
                  && SecondsLeft(deadline - calls[i].at, reply.live.value.remaining)))
  {
    var up := Call(at, Upsert(event, expiresSecs, dialog, cseqBase));
    var next := Serve(r, up).0;
    assert ([up] + calls)[1..] == calls;
    EntryDeterminesReplies(next, calls, event, i);
    assert calls[0].at <= calls[i].at;
    WrapsOnce(cseqBase, Asked(calls[..i], event));
    var deadline := at + Granted(expiresSecs) * NANOS;
    if calls[i].at < deadline {
      RemainingIsLeft(deadline, calls[i].at);
    }
  }

  function Numbered(calls: seq<Call>): nat {
    if calls == [] then 0 else (if calls[0].op == NextSn then 1 else 0) + Numbered(calls[1..])
  }

  /** Numbers count up from the book's last one, modulo 2^32, whatever is subscribed or read in between. */
  lemma {:induction false} NumbersCountUp(r: Registry, calls: seq<Call>, i: nat)
    requires i < |calls| && calls[i].op == NextSn
    ensures |Replies(r, calls)| == |calls|
    ensures Replies(r, calls)[i] == Number((r.sn + Numbered(calls[..i]) + 1) % 0x1_0000_0000)
    decreases i
  {
    RepliesCount(r, calls);
    if i > 0 {
      var next := Serve(r, calls[0]).0;
      NumbersCountUp(next, calls[1..], i - 1);
      assert calls[..i][0] == calls[0] && calls[..i][1..] == calls[1..][..i - 1];
      NumberWraps(r.sn, Numbered(calls[1..][..i - 1]));
    }
  }

  lemma NumberWraps(c: nat, k: nat)
    ensures ((c + 1) % TWO_32 + k + 1) % TWO_32 == (c + (1 + k) + 1) % TWO_32
  {
  }
}
