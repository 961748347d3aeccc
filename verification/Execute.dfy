/**
 Request execution: the hold-back writer of relexec/hold.go and Prepared.Execute of relexec/relexec.go, over a
 connection and a client any step of which may fail.
 */
module Execute {
  import opened Wrappers
  import opened Bytes
  import CborEncode

  // ---- the client ----------------------------------------------------------------------------------

  function Least(a: nat, b: nat): nat {
    if a < b then a else b
  }

  /** Where the response goes. The nth write takes at most accepts(n) bytes; taking fewer than asked is a failure. */
  class Sink {
    const accepts: nat -> nat
    var writes: nat
    var delivered: seq<byte>

    constructor (accepts: nat -> nat)
      ensures delivered == [] && this.accepts == accepts && writes == 0
    {
      this.accepts := accepts;
      writes := 0;
      delivered := [];
    }

    method Write(p: seq<byte>) returns (ok: bool)
      modifies this
      ensures var n := Least(accepts(old(writes)), |p|);
              delivered == old(delivered) + p[..n] && (ok <==> n == |p|) && writes == old(writes) + 1
    {
      var n := Least(accepts(writes), |p|);
      writes := writes + 1;
      delivered := delivered + p[..n];
      ok := n == |p|;
    }
  }

  // ---- what becomes of writes --------------------------------------------------------------------------

  /** The hold-back writer at some moment, and how many writes have reached the client. */
  datatype Held = Held(buf: seq<byte>, released: bool, writes: nat)

  /** How much the client takes at each write, and how much is held back. */
  datatype Client = Client(accepts: nat -> nat, limit: nat)

  /** Letting go of what is held; none when the client falls short. */
  function LetGo(h: Held, c: Client): Option<Held> {
    if h.buf == [] then Some(Held([], true, h.writes))
    else if c.accepts(h.writes) >= |h.buf| then Some(Held([], true, h.writes + 1)) else None
  }

  function Pass(h: Held, p: seq<byte>, c: Client): Option<Held> {
    if c.accepts(h.writes) >= |p| then Some(Held([], true, h.writes + 1)) else None
  }

  function Push(h: Held, p: seq<byte>, c: Client): Option<Held> {
    if h.released then Pass(h, p, c)
    else if |h.buf| + |p| <= c.limit then Some(h.(buf := h.buf + p))
    else if LetGo(h, c).None? then None else Pass(LetGo(h, c).value, p, c)
  }

  function PushAll(h: Held, ps: seq<seq<byte>>, c: Client): Option<Held> {
    if ps == [] then Some(h)
    else
      var before := PushAll(h, ps[..|ps| - 1], c);
      if before.None? then None else Push(before.value, ps[|ps| - 1], c)
  }

  function Flushed(h: Held, c: Client): Option<Held> {
    if h.released then Some(h) else LetGo(h, c)
  }

  // ---- the hold-back writer ----------------------------------------------------------------------------

  /** Keeps the first `limit` bytes until more are written or it is flushed. */
  class HoldWriter {
    const sink: Sink
    const limit: nat
    var buf: seq<byte>
    var released: bool

    ghost predicate Valid()
      reads this
    {
      |buf| <= limit && (released ==> buf == [])
    }

    /** All that was written, passed on or held. */
    ghost function Taken(): seq<byte>
      reads this, sink
    {
      sink.delivered + buf
    }

    ghost function Now(): Held
      reads this, sink
    {
      Held(buf, released, sink.writes)
    }

    constructor (sink: Sink, limit: nat)
      ensures Valid() && !released && this.sink == sink && this.limit == limit && buf == []
    {
      this.sink := sink;
      this.limit := limit;
      buf := [];
      released := false;
    }

    method Write(p: seq<byte>) returns (ok: bool)
      requires Valid()
      modifies this`buf, this`released, sink
      ensures Valid() && (old(released) ==> released)
      ensures ok ==> Taken() == old(Taken()) + p
      ensures !ok ==> released
      ensures !released ==> ok && sink.delivered == old(sink.delivered) && sink.writes == old(sink.writes)
                            && buf == old(buf) + p
      ensures !old(released) ==> (released <==> |old(buf)| + |p| > limit)
      ensures old(sink.delivered) <= sink.delivered
      ensures var h := Push(old(Now()), p, Client(sink.accepts, limit)); ok == h.Some? && (ok ==> Now() == h.value)
    {
      if released {
        ok := sink.Write(p);
        return;
      }
      if |buf| + |p| <= limit {
        buf := buf + p;
        return true;
      }
      ok := Release();
      if !ok {
        return;
      }
      ok := sink.Write(p);
    }

    method Release() returns (ok: bool)
      requires Valid()
      modifies this`buf, this`released, sink
      ensures Valid() && released
      ensures ok ==> Taken() == old(Taken())
      ensures old(sink.delivered) <= sink.delivered
      ensures var h := LetGo(old(Now()), Client(sink.accepts, limit)); ok == h.Some? && (ok ==> Now() == h.value)
    {
      released := true;
      if |buf| == 0 {
        return true;
      }
      ok := sink.Write(buf);
      buf := [];
    }

    method Flush() returns (ok: bool)
      requires Valid()
      modifies this`buf, this`released, sink
      ensures Valid() && released
      ensures ok ==> sink.delivered == old(Taken())
      ensures old(sink.delivered) <= sink.delivered
      ensures var h := Flushed(old(Now()), Client(sink.accepts, limit)); ok == h.Some? && (ok ==> Now() == h.value)
    {
      if released {
        return true;
      }
      ok := Release();
    }
  }

  // ---- the database -----------------------------------------------------------------------------------------

  /** A connection. Step n fails when fails(n); what is not committed is not in the database. */
  class Conn<S> {
    const fails: nat -> bool
    var clock: nat
    var committed: S
    var working: Option<S>
    var saved: map<nat, S>

    constructor (fails: nat -> bool, db: S)
      ensures committed == db && working == None && this.fails == fails && clock == 0
    {
      this.fails := fails;
      clock := 0;
      committed := db;
      working := None;
      saved := map[];
    }

    method Step() returns (ok: bool)
      modifies this`clock
      ensures ok == !fails(old(clock)) && clock == old(clock) + 1
    {
      ok := !fails(clock);
      clock := clock + 1;
    }

    method Begin() returns (ok: bool)
      modifies this
      ensures ok == !fails(old(clock)) && clock == old(clock) + 1
      ensures committed == old(committed) && (ok ==> working == Some(committed))
    {
      ok := Step();
      working := if ok then Some(committed) else None;
      saved := map[];
    }

    method Savepoint(name: nat) returns (ok: bool)
      requires working.Some?
      modifies this
      ensures ok == !fails(old(clock)) && clock == old(clock) + 1
      ensures committed == old(committed) && working == old(working)
      ensures ok ==> saved == old(saved)[name := working.value]
    {
      ok := Step();
      if ok {
        saved := saved[name := working.value];
      }
    }

    method RollbackTo(name: nat) returns (ok: bool)
      requires working.Some? && name in saved
      modifies this
      ensures ok == !fails(old(clock)) && clock == old(clock) + 1
      ensures committed == old(committed) && saved == old(saved)
      ensures ok ==> working == Some(saved[name])
    {
      ok := Step();
      if ok {
        working := Some(saved[name]);
      }
    }

    method Apply(effect: S -> S) returns (ok: bool)
      requires working.Some?
      modifies this
      ensures ok == !fails(old(clock)) && clock == old(clock) + 1
      ensures committed == old(committed) && saved == old(saved) && working.Some?
      ensures working == if ok then Some(effect(old(working.value))) else old(working)
    {
      ok := Step();
      if ok {
        working := Some(effect(working.value));
      }
    }

    /** The one commit: the working state becomes the database's, or it fails and does not. */
    method Commit() returns (ok: bool)
      requires working.Some?
      modifies this
      ensures ok == !fails(old(clock)) && clock == old(clock) + 1
      ensures committed == if ok then old(working.value) else old(committed)
    {
      ok := Step();
      if ok {
        committed := working.value;
      }
      working := None;
    }

    method Rollback()
      modifies this
      ensures committed == old(committed) && working.None?
    {
      var _ := Step();
      working := None;
    }
  }

  // ---- the request -----------------------------------------------------------------------------------------------

  /**
   An item: its effect on the database when it writes, whether it is undone, and the pieces of its response.
   A write that captures its response does so right after its own effect, any other item answers at the end.
   */
  datatype Item<!S> = Item(isWrite: bool, rollback: bool, captures: bool, effect: S -> S, render: S -> seq<seq<byte>>)

  datatype Format = Json | Cbor

  /** The state the items' writes leave: those not rolled back, in order. */
  function After<S>(items: seq<Item<S>>, db: S): S {
    if items == [] then db
    else
      var before := After(items[..|items| - 1], db);
      var last := items[|items| - 1];
      if last.isWrite && !last.rollback then last.effect(before) else before
  }

  /** The writes that stay. */
  function Lasting<S>(items: seq<Item<S>>): seq<Item<S>> {
    if items == [] then []
    else
      var last := items[|items| - 1];
      Lasting(items[..|items| - 1]) + (if last.isWrite && !last.rollback then [last] else [])
  }

  function Applied<S>(effects: seq<Item<S>>, db: S): S {
    if effects == [] then db else effects[|effects| - 1].effect(Applied(effects[..|effects| - 1], db))
  }

  /** What is committed is what the lasting writes alone would have done. */
  lemma {:induction false} OnlyLasting<S>(items: seq<Item<S>>, db: S)
    ensures After(items, db) == Applied(Lasting(items), db)
  {
    if items != [] {
      OnlyLasting(items[..|items| - 1], db);
      var kept := Lasting(items[..|items| - 1]);
      var last := items[|items| - 1];
      if last.isWrite && !last.rollback {
        assert (kept + [last])[..|kept|] == kept;
      } else {
        assert kept + [] == kept;
      }
    }
  }

  /** The state an item answers from. */
  function Seen<S>(items: seq<Item<S>>, i: nat, db: S): S
    requires i < |items|
  {
    if items[i].isWrite && (items[i].captures || items[i].rollback) then items[i].effect(After(items[..i], db))
       else After(items, db)
  }

  function Joined(chunks: seq<seq<byte>>): seq<byte> {
    if chunks == [] then [] else Joined(chunks[..|chunks| - 1]) + chunks[|chunks| - 1]
  }

  function HeadOf(format: Format, count: nat): seq<byte> {
    if count <= 1 then [] else if format == Cbor then CborEncode.HeadBytes(4, count % TWO64) else [0x5b]
  }

  function Separator(format: Format, i: nat): seq<byte> {
    if i > 0 && format == Json then [0x2c] else []
  }

  /** The responses of the first `count` items, in order. */
  function Responses<S>(items: seq<Item<S>>, count: nat, format: Format, db: S): seq<byte>
    requires count <= |items|
  {
    if count == 0 then []
    else Responses(items, count - 1, format, db) + Separator(format, count - 1)
         + Joined(items[count - 1].render(Seen(items, count - 1, db)))
  }

  function TailOf(format: Format, count: nat): seq<byte> {
    if count > 1 && format == Json then [0x5d] else []
  }

  /** The whole body. */
  function Body<S>(items: seq<Item<S>>, format: Format, db: S): seq<byte> {
    HeadOf(format, |items|) + Responses(items, |items|, format, db) + TailOf(format, |items|)
  }

  // ---- a run, step by step ----------------------------------------------------------------------------------------

  /** A run asks the connection for things and puts bytes out. */
  datatype Act = Ask | Put(p: seq<byte>)

  /** The connection's clock and the writer. */
  datatype Now = Now(clock: nat, held: Held)

  /** Playing a run; none when a step fails or the client falls short. */
  function Play(acts: seq<Act>, now: Now, fails: nat -> bool, c: Client): Option<Now> {
    if acts == [] then Some(now)
    else
      var before := Play(acts[..|acts| - 1], now, fails, c);
      if before.None? then None
      else
        match acts[|acts| - 1]
        case Ask => if fails(before.value.clock) then None else Some(before.value.(clock := before.value.clock + 1))
        case Put(p) => if Push(before.value.held, p, c).None? then None
        else Some(before.value.(held := Push(before.value.held, p, c).value))
  }

  lemma {:induction false} PlayJoin(a: seq<Act>, b: seq<Act>, now: Now, fails: nat -> bool, c: Client)
    ensures Play(a + b, now, fails, c) == var m := Play(a, now, fails, c);
            if m.None? then None else Play(b, m.value, fails, c)
    decreases |b|
  {
    hide Push;
    if b == [] {
      assert a + b == a;
    } else {
      assert (a + b)[..|a + b| - 1] == a + b[..|b| - 1];
      PlayJoin(a, b[..|b| - 1], now, fails, c);
    }
  }

  function Asks(acts: seq<Act>): nat {
    if acts == [] then 0 else Asks(acts[..|acts| - 1]) + (if acts[|acts| - 1].Ask? then 1 else 0)
  }

  function Puts(acts: seq<Act>): seq<seq<byte>> {
    if acts == [] then [] else Puts(acts[..|acts| - 1]) + (if acts[|acts| - 1].Put? then [acts[|acts| - 1].p] else [])
  }

  /** No step of the connection fails among the next `count`. */
  ghost predicate Fine(fails: nat -> bool, clock: nat, count: nat) {
    forall n :: clock <= n < clock + count ==> !fails(n)
  }

  /** A run goes through if and only if the connection answers every time and the client takes every write. */
  lemma {:induction false} PlayIff(acts: seq<Act>, now: Now, fails: nat -> bool, c: Client)
    ensures var r, held := Play(acts, now, fails, c), PushAll(now.held, Puts(acts), c);
            && (r.Some? <==> Fine(fails, now.clock, Asks(acts)) && held.Some?)
            && (r.Some? ==> r.value == Now(now.clock + Asks(acts), held.value))
  {
    hide Push;
    if acts != [] {
      PlayIff(acts[..|acts| - 1], now, fails, c);
      var init, last := Puts(acts[..|acts| - 1]), acts[|acts| - 1];
      if last.Put? {
        assert (init + [last.p])[..|init|] == init;
      } else {
        assert init + [] == init;
        var n := Asks(acts[..|acts| - 1]);
        assert Fine(fails, now.clock, n + 1) <==> Fine(fails, now.clock, n) && !fails(now.clock + n) by {
          FineNext(fails, now.clock, n);
        }
      }
    }
  }

  lemma FineNext(fails: nat -> bool, clock: nat, n: nat)
    ensures Fine(fails, clock, n + 1) <==> Fine(fails, clock, n) && !fails(clock + n)
  {
  }

  function Asking(count: nat): seq<Act> {
    if count == 0 then [] else Asking(count - 1) + [Ask]
  }

  lemma {:induction false} PlayAsking(count: nat, now: Now, fails: nat -> bool, c: Client)
    ensures Play(Asking(count), now, fails, c) == if Fine(fails, now.clock, count)
            then Some(now.(clock := now.clock + count)) else None
  {
    if count > 0 {
      PlayAsking(count - 1, now, fails, c);
      assert Asking(count)[..|Asking(count)| - 1] == Asking(count - 1);
      FineNext(fails, now.clock, count - 1);
    }
  }

  ghost function Moment<S>(cw: HoldWriter, conn: Conn<S>): Now
    reads cw, cw.sink, conn
  {
    Now(conn.clock, cw.Now())
  }

  /** What some steps did is what their acts say. */
  ghost predicate Does(acts: seq<Act>, before: Now, after: Now, ok: bool, fails: nat -> bool, c: Client) {
    var p := Play(acts, before, fails, c);
    ok == p.Some? && (ok ==> after == p.value)
  }

  /** Steps one after the other. */
  lemma DoesBoth(a: seq<Act>, b: seq<Act>, before: Now, middle: Now, after: Now, ok: bool, fails: nat -> bool,
                 c: Client)
    requires Does(a, before, middle, true, fails, c) && Does(b, middle, after, ok, fails, c)
    ensures Does(a + b, before, after, ok, fails, c)
  {
    hide Play;
    PlayJoin(a, b, before, fails, c);
  }

  /** Steps that stop early stop what follows. */
  lemma DoesStop(a: seq<Act>, b: seq<Act>, before: Now, after: Now, fails: nat -> bool, c: Client)
    requires Does(a, before, after, false, fails, c)
    ensures Does(a + b, before, after, false, fails, c)
  {
    hide Play;
    PlayJoin(a, b, before, fails, c);
  }

  lemma DoesAsk(before: Now, fails: nat -> bool, c: Client)
    ensures Does([Ask], before, before.(clock := before.clock + 1), !fails(before.clock), fails, c)
    ensures fails(before.clock) ==> forall after :: Does([Ask], before, after, false, fails, c)
  {
    assert Play([Ask][..0], before, fails, c) == Some(before);
  }

  lemma DoesPut(p: seq<byte>, before: Now, fails: nat -> bool, c: Client)
    ensures var h := Push(before.held, p, c);
            Play([Put(p)], before, fails, c) == if h.None? then None else Some(before.(held := h.value))
  {
    assert Play([Put(p)][..0], before, fails, c) == Some(before);
  }

  lemma DoesAsking(count: nat, before: Now, fails: nat -> bool, c: Client)
    ensures Fine(fails, before.clock, count) ==>
              Does(Asking(count), before, before.(clock := before.clock + count), true, fails, c)
    ensures !Fine(fails, before.clock, count) ==> forall after :: Does(Asking(count), before, after, false, fails, c)
  {
    hide Play, Asking, Fine;
    PlayAsking(count, before, fails, c);
  }

  // ---- the script of a request ------------------------------------------------------------------------------------

  function AnyWrite<S>(items: seq<Item<S>>): bool {
    items != [] && (items[|items| - 1].isWrite || AnyWrite(items[..|items| - 1]))
  }

  /** A session for each encoder, and the temp tables when there is a write. */
  function PrepareSteps<S>(items: seq<Item<S>>): nat {
    |items| + (if AnyWrite(items) then 1 else 0)
  }

  /** A savepoint, the write, its own read-back, and the way back to the savepoint. */
  function ItemSteps<S>(item: Item<S>): nat {
    if !item.isWrite then 0
    else if item.rollback then 4
    else if item.captures then 2
    else 1
  }

  function WriteSteps<S>(items: seq<Item<S>>): nat {
    if items == [] then 0 else WriteSteps(items[..|items| - 1]) + ItemSteps(items[|items| - 1])
  }

  /** The pieces of a response, each read from the database first unless it was kept aside. */
  function ItemActs(chunks: seq<seq<byte>>, live: bool): seq<Act> {
    if chunks == [] then []
    else ItemActs(chunks[..|chunks| - 1], live) + (if live then [Ask] else []) + [Put(chunks[|chunks| - 1])]
  }

  function SeparatorActs(format: Format, i: nat): seq<Act> {
    if i > 0 && format == Json then [Put([0x2c])] else []
  }

  predicate Aside<S>(item: Item<S>) {
    item.isWrite && (item.captures || item.rollback)
  }

  function ResponseActs<S>(items: seq<Item<S>>, count: nat, format: Format, db: S): seq<Act>
    requires count <= |items|
  {
    if count == 0 then (if |items| > 1 then [Put(HeadOf(format, |items|))] else [])
    else
      ResponseActs(items, count - 1, format, db) + OneActs(items, count - 1, format, db)
  }

  function OneActs<S>(items: seq<Item<S>>, i: nat, format: Format, db: S): seq<Act>
    requires i < |items|
  {
    SeparatorActs(format, i) + ItemActs(items[i].render(Seen(items, i, db)), !Aside(items[i]))
  }

  /** All of a request up to its commit: preparing, begin, the writes, the compiling of reads, the responses, commit. */
  function Script<S>(items: seq<Item<S>>, format: Format, db: S): seq<Act> {
    Asking(PrepareSteps(items)) + ([Ask] + Inside(items, format, db))
  }

  function Inside<S>(items: seq<Item<S>>, format: Format, db: S): seq<Act> {
    Asking(WriteSteps(items)) + ([Ask] + (ResponseActs(items, |items|, format, db) + [Ask]))
  }

  /** The end of the body, and the last bytes held. */
  function Ended(h: Held, format: Format, count: nat, c: Client): Option<Held> {
    var t := if count > 1 && format == Json then Push(h, [0x5d], c) else Some(h);
    if t.None? then None else Flushed(t.value, c)
  }

  // ---- the write phase --------------------------------------------------------------------------------------------

  /** What the write phase captured for each item so far. */
  ghost predicate Captured<S(!new)>(items: seq<Item<S>>, buffered: seq<Option<seq<seq<byte>>>>, done: nat, db: S) {
    && |buffered| == |items| && done <= |items|
    && forall i :: 0 <= i < done ==>
         buffered[i] == if items[i].isWrite && (items[i].captures || items[i].rollback)
         then Some(items[i].render(Seen(items, i, db))) else None
  }

  /**
   One item's write: in its own savepoint when it is to be undone, its rows kept aside when nothing will show them
   later.
   */
  method WriteOf<S(!new)>(item: Item<S>, i: nat, conn: Conn<S>) returns (ok: bool, rows: Option<seq<seq<byte>>>)
    requires conn.working.Some?
    modifies conn
    ensures conn.committed == old(conn.committed)
    ensures ok <==> Fine(conn.fails, old(conn.clock), ItemSteps(item))
    ensures ok ==> conn.clock == old(conn.clock) + ItemSteps(item)
    ensures ok ==> conn.working == Some(if item.isWrite && !item.rollback then item.effect(old(conn.working.value))
                                        else old(conn.working.value))
    ensures ok ==> rows == if Aside(item) then Some(item.render(item.effect(old(conn.working.value)))) else None
  {
    rows := None;
    ok := true;
    if item.isWrite {
      if item.rollback {
        ok := conn.Savepoint(i);
        if !ok { return; }
      }
      ok := conn.Apply(item.effect);
      if !ok { return; }
      if item.captures || item.rollback {
        ok := conn.Step();
        if !ok { return; }
        rows := Some(item.render(conn.working.value));
      }
      if item.rollback {
        ok := conn.RollbackTo(i);
      }
    }
  }

  lemma FineJoin(fails: nat -> bool, clock: nat, a: nat, b: nat)
    ensures Fine(fails, clock, a + b) <==> Fine(fails, clock, a) && Fine(fails, clock + a, b)
  {
  }

  lemma NoSteps<S>(items: seq<Item<S>>, fails: nat -> bool, clock: nat)
    ensures WriteSteps(items[..0]) == 0 && Fine(fails, clock, 0)
  {
  }

  method WritePhase<S(!new)>(items: seq<Item<S>>, conn: Conn<S>)
  returns (ok: bool, buffered: seq<Option<seq<seq<byte>>>>)
    requires conn.working == Some(conn.committed)
    modifies conn
    ensures conn.committed == old(conn.committed)
    ensures ok ==> conn.working == Some(After(items, old(conn.committed)))
                   && Captured(items, buffered, |items|, old(conn.committed))
    ensures ok <==> Fine(conn.fails, old(conn.clock), WriteSteps(items))
    ensures ok ==> conn.clock == old(conn.clock) + WriteSteps(items)
  {
    hide Seen, After, Fine, WriteSteps, ItemSteps;
    NoSteps(items, conn.fails, conn.clock);
    buffered := seq(|items|, _ => None);
    NothingYet(items, conn.committed);
    for i := 0 to |items|
      invariant conn.committed == old(conn.committed)
      invariant conn.working == Some(After(items[..i], old(conn.committed)))
      invariant Captured(items, buffered, i, old(conn.committed)) && forall j :: i <= j < |items| ==> buffered[j].None?
      invariant conn.clock == old(conn.clock) + WriteSteps(items[..i])
                && Fine(conn.fails, old(conn.clock), WriteSteps(items[..i]))
    {
      AfterNext(items, i, conn.committed);
      StepsNext(items, i);
      SeenOwn(items, i, conn.committed);
      ghost var before := WriteSteps(items[..i]);
      FineJoin(conn.fails, old(conn.clock), before, ItemSteps(items[i]));
      FineJoin(conn.fails, old(conn.clock), before + ItemSteps(items[i]),
               WriteSteps(items) - before - ItemSteps(items[i]));
      var rows;
      ok, rows := WriteOf(items[i], i, conn);
      if !ok { return; }
      buffered := buffered[i := rows];
    }
    assert items[..|items|] == items;
    ok := true;
  }

  lemma {:induction false} StepsNext<S>(items: seq<Item<S>>, i: nat)
    requires i < |items|
    ensures WriteSteps(items[..i + 1]) == WriteSteps(items[..i]) + ItemSteps(items[i]) <= WriteSteps(items)
    decreases |items|
  {
    assert items[..i + 1][..i] == items[..i];
    if i + 1 < |items| {
      var shorter := items[..|items| - 1];
      assert shorter[..i + 1] == items[..i + 1] && shorter[..i] == items[..i];
      StepsNext(shorter, i);
    } else {
      assert items[..i + 1] == items;
    }
  }

  lemma NothingYet<S>(items: seq<Item<S>>, db: S)
    ensures After(items[..0], db) == db
  {
  }

  lemma AfterNext<S>(items: seq<Item<S>>, i: nat, db: S)
    requires i < |items|
    ensures After(items[..i + 1], db)
            == if items[i].isWrite && !items[i].rollback then items[i].effect(After(items[..i], db))
            else After(items[..i], db)
  {
    assert items[..i + 1][..i] == items[..i];
  }

  lemma SeenOwn<S>(items: seq<Item<S>>, i: nat, db: S)
    requires i < |items|
    ensures Aside(items[i]) ==> Seen(items, i, db) == items[i].effect(After(items[..i], db))
  {
  }

  // ---- writing the response ---------------------------------------------------------------------------------------

  /** One item's pieces; each is read from the database unless it was kept aside, then written. */
  method WriteItem<S(!new)>(cw: HoldWriter, conn: Conn<S>, chunks: seq<seq<byte>>, live: bool) returns (ok: bool)
    requires cw.Valid()
    modifies cw`buf, cw`released, cw.sink, conn`clock
    ensures cw.Valid() && (old(cw.released) ==> cw.released)
    ensures ok ==> cw.Taken() == old(cw.Taken()) + Joined(chunks)
    ensures !cw.released ==> cw.sink.delivered == old(cw.sink.delivered)
    ensures !old(cw.released) && |old(cw.buf)| + |Joined(chunks)| <= cw.limit ==> !cw.released
    ensures old(cw.sink.delivered) <= cw.sink.delivered
    ensures Does(ItemActs(chunks, live), old(Moment(cw, conn)), Moment(cw, conn), ok, conn.fails,
                 Client(cw.sink.accepts, cw.limit))
  {
    hide Push, ItemActs, Play;
    ghost var start := cw.Taken();
    ghost var first := Moment(cw, conn);
    ghost var c := Client(cw.sink.accepts, cw.limit);
    assert start + Joined(chunks[..0]) == start;
    NoActs(chunks, live, first, conn.fails, c);
    for i := 0 to |chunks|
      invariant cw.Valid() && (old(cw.released) ==> cw.released)
      invariant cw.Taken() == start + Joined(chunks[..i])
      invariant !cw.released ==> cw.sink.delivered == old(cw.sink.delivered)
      invariant !old(cw.released) && |old(cw.buf)| + |Joined(chunks)| <= cw.limit ==> !cw.released
      invariant old(cw.sink.delivered) <= cw.sink.delivered
      invariant Play(ItemActs(chunks[..i], live), first, conn.fails, c) == Some(Moment(cw, conn))
    {
      ItemNext(chunks, i, live, first, conn.fails, c);
      ItemStuck(chunks, i + 1, live, first, conn.fails, c);
      if live {
        ok := conn.Step();
        if !ok { return; }
      }
      JoinedNext(chunks, i);
      ok := cw.Write(chunks[i]);
      if !ok { return; }
      assert start + Joined(chunks[..i]) + chunks[i] == start + Joined(chunks[..i + 1]);
    }
    assert chunks[..|chunks|] == chunks;
    ok := true;
  }

  lemma NoActs(chunks: seq<seq<byte>>, live: bool, now: Now, fails: nat -> bool, c: Client)
    ensures Play(ItemActs(chunks[..0], live), now, fails, c) == Some(now)
  {
  }

  lemma ItemNext(chunks: seq<seq<byte>>, i: nat, live: bool, now: Now, fails: nat -> bool, c: Client)
    requires i < |chunks|
    ensures var m := Play(ItemActs(chunks[..i], live), now, fails, c);
            Play(ItemActs(chunks[..i + 1], live), now, fails, c)
            == if m.None? || (live && fails(m.value.clock)) || Push(m.value.held, chunks[i], c).None? then None
               else Some(Now(m.value.clock + (if live then 1 else 0), Push(m.value.held, chunks[i], c).value))
  {
    hide Push, Play;
    assert chunks[..i + 1][..i] == chunks[..i];
    var a, ask, put := ItemActs(chunks[..i], live), if live then [Ask] else [], [Put(chunks[i])];
    assert ItemActs(chunks[..i + 1], live) == a + ask + put;
    PlayJoin(a + ask, put, now, fails, c);
    PlayJoin(a, ask, now, fails, c);
    var m := Play(a, now, fails, c);
    if m.Some? {
      DoesAsk(m.value, fails, c);
      NothingPlayed(m.value, fails, c);
      DoesPut(chunks[i], m.value, fails, c);
      DoesPut(chunks[i], m.value.(clock := m.value.clock + 1), fails, c);
    }
  }

  lemma NothingPlayed(now: Now, fails: nat -> bool, c: Client)
    ensures Play([], now, fails, c) == Some(now)
  {
  }

  lemma {:induction false} ItemStuck(chunks: seq<seq<byte>>, i: nat, live: bool, now: Now, fails: nat -> bool,
                                     c: Client)
    requires i <= |chunks|
    ensures Play(ItemActs(chunks[..i], live), now, fails, c).None? ==> Play(ItemActs(chunks, live), now, fails, c).None?
    decreases |chunks| - i
  {
    hide Push, Play, ItemActs;
    if i == |chunks| {
      assert chunks[..i] == chunks;
    } else {
      ItemNext(chunks, i, live, now, fails, c);
      ItemStuck(chunks, i + 1, live, now, fails, c);
    }
  }

  lemma {:induction false} JoinedNext(chunks: seq<seq<byte>>, i: nat)
    requires i < |chunks|
    ensures Joined(chunks[..i + 1]) == Joined(chunks[..i]) + chunks[i]
    ensures |Joined(chunks[..i + 1])| <= |Joined(chunks)|
    decreases |chunks|
  {
    assert chunks[..i + 1][..i] == chunks[..i];
    if i + 1 < |chunks| {
      var shorter := chunks[..|chunks| - 1];
      assert shorter[..i + 1] == chunks[..i + 1] && shorter[..i] == chunks[..i];
      JoinedNext(shorter, i);
    } else {
      assert chunks[..i + 1] == chunks;
    }
  }

  /** The array's head, the separators and every item's response. */
  method WriteResponses<S(!new)>(cw: HoldWriter, conn: Conn<S>, items: seq<Item<S>>, format: Format,
                                 buffered: seq<Option<seq<seq<byte>>>>, ghost db: S) returns (ok: bool)
    requires cw.Valid() && !cw.released && cw.buf == []
    requires Captured(items, buffered, |items|, db) && conn.working == Some(After(items, db))
    modifies cw`buf, cw`released, cw.sink, conn`clock
    ensures cw.Valid()
    ensures ok ==> cw.Taken() == old(cw.sink.delivered)
                   + (HeadOf(format, |items|) + Responses(items, |items|, format, db))
    ensures !cw.released ==> cw.sink.delivered == old(cw.sink.delivered)
    ensures |HeadOf(format, |items|) + Responses(items, |items|, format, db)| <= cw.limit ==> !cw.released
    ensures old(cw.sink.delivered) <= cw.sink.delivered
    ensures Does(ResponseActs(items, |items|, format, db), old(Moment(cw, conn)), Moment(cw, conn), ok, conn.fails,
                 Client(cw.sink.accepts, cw.limit))
  {
    hide Seen, After, Joined, HeadOf, Responses, Separator, Push, Play, ResponseActs, OneActs, Does;
    ghost var first, c := Moment(cw, conn), Client(cw.sink.accepts, cw.limit);
    var head := HeadOf(format, |items|);
    ghost var whole := head + Responses(items, |items|, format, db);
    ghost var start := cw.sink.delivered;
    HeadRule(format, |items|);
    NoResponses(items, format, db);
    ResponsesGrow(items, 0, format, db);
    HeadActs(items, format, db, first, conn.fails, c);
    if |items| > 1 {
      ok := cw.Write(head);
      if !ok {
        ResponseStuck(items, 0, format, db, first, Moment(cw, conn), conn.fails, c);
        return;
      }
    }
    assert cw.Taken() == start + (head + Responses(items, 0, format, db));
    for i := 0 to |items|
      invariant cw.Valid() && conn.working == Some(After(items, db))
      invariant cw.Taken() == start + (head + Responses(items, i, format, db))
      invariant !cw.released ==> cw.sink.delivered == start
      invariant |whole| <= cw.limit ==> !cw.released
      invariant start <= cw.sink.delivered
      invariant Does(ResponseActs(items, i, format, db), first, Moment(cw, conn), true, conn.fails, c)
    {
      ResponsesGrow(items, i + 1, format, db);
      ghost var middle := Moment(cw, conn);
      ok := WriteOne(cw, conn, items, i, format, buffered, db);
      ResponseNext(items, i, format, db, first, middle, Moment(cw, conn), ok, conn.fails, c);
      if !ok {
        ResponseStuck(items, i + 1, format, db, first, Moment(cw, conn), conn.fails, c);
        return;
      }
      NextResponse(items, i, format, db, start, head);
    }
    ok := true;
  }

  lemma HeadActs<S>(items: seq<Item<S>>, format: Format, db: S, now: Now, fails: nat -> bool, c: Client)
    ensures |items| <= 1 ==> Does(ResponseActs(items, 0, format, db), now, now, true, fails, c)
    ensures |items| > 1 ==>
              var h := Push(now.held, HeadOf(format, |items|), c);
              && (h.Some? ==> Does(ResponseActs(items, 0, format, db), now, now.(held := h.value), true, fails, c))
              && (h.None? ==> forall after :: Does(ResponseActs(items, 0, format, db), now, after, false, fails, c))
  {
    hide HeadOf, Push, Play;
    NothingPlayed(now, fails, c);
    DoesPut(HeadOf(format, |items|), now, fails, c);
  }

  lemma ResponseNext<S>(items: seq<Item<S>>, i: nat, format: Format, db: S, first: Now, middle: Now, after: Now,
                        ok: bool, fails: nat -> bool, c: Client)
    requires i < |items| && Does(ResponseActs(items, i, format, db), first, middle, true, fails, c)
    requires Does(OneActs(items, i, format, db), middle, after, ok, fails, c)
    ensures Does(ResponseActs(items, i + 1, format, db), first, after, ok, fails, c)
  {
    hide Does, OneActs, Play;
    DoesBoth(ResponseActs(items, i, format, db), OneActs(items, i, format, db), first, middle, after, ok, fails, c);
  }

  lemma {:induction false} ResponseStuck<S>(items: seq<Item<S>>, i: nat, format: Format, db: S, first: Now, after: Now,
                                            fails: nat -> bool, c: Client)
    requires i <= |items| && Does(ResponseActs(items, i, format, db), first, after, false, fails, c)
    ensures Does(ResponseActs(items, |items|, format, db), first, after, false, fails, c)
    decreases |items| - i
  {
    hide Does, OneActs, Play;
    if i < |items| {
      DoesStop(ResponseActs(items, i, format, db), OneActs(items, i, format, db), first, after, fails, c);
      ResponseStuck(items, i + 1, format, db, first, after, fails, c);
    }
  }

  /** The separator and the response of one item. */
  method WriteOne<S(!new)>(cw: HoldWriter, conn: Conn<S>, items: seq<Item<S>>, i: nat, format: Format,
                           buffered: seq<Option<seq<seq<byte>>>>, ghost db: S) returns (ok: bool)
    requires cw.Valid() && i < |items| && Captured(items, buffered, |items|, db)
             && conn.working == Some(After(items, db))
    modifies cw`buf, cw`released, cw.sink, conn`clock
    ensures cw.Valid() && (old(cw.released) ==> cw.released)
    ensures ok ==> cw.Taken() == old(cw.Taken()) + (Separator(format, i) + Joined(items[i].render(Seen(items, i, db))))
    ensures !cw.released ==> cw.sink.delivered == old(cw.sink.delivered)
    ensures !old(cw.released) && |old(cw.buf)| + |Separator(format, i)
            + Joined(items[i].render(Seen(items, i, db)))| <= cw.limit
            ==> !cw.released
    ensures old(cw.sink.delivered) <= cw.sink.delivered
    ensures Does(OneActs(items, i, format, db), old(Moment(cw, conn)), Moment(cw, conn), ok, conn.fails,
                 Client(cw.sink.accepts, cw.limit))
  {
    hide After, Joined, Push, Play, ItemActs;
    ghost var first, c := Moment(cw, conn), Client(cw.sink.accepts, cw.limit);
    ghost var before, acts := SeparatorActs(format, i), ItemActs(items[i].render(Seen(items, i, db)), !Aside(items[i]));
    DoesPut([0x2c], first, conn.fails, c);
    NothingPlayed(first, conn.fails, c);
    if |items| > 1 && i > 0 && format == Json {
      ok := cw.Write([0x2c]);
      if !ok {
        DoesStop(before, acts, first, Moment(cw, conn), conn.fails, c);
        return;
      }
    }
    ghost var middle := Moment(cw, conn);
    var chunks := if buffered[i].Some? then buffered[i].value else items[i].render(conn.working.value);
    assert chunks == items[i].render(Seen(items, i, db));
    ok := WriteItem(cw, conn, chunks, buffered[i].None?);
    DoesBoth(before, acts, first, middle, Moment(cw, conn), ok, conn.fails, c);
  }

  lemma NoResponses<S>(items: seq<Item<S>>, format: Format, db: S)
    ensures Responses(items, 0, format, db) == []
  {
  }

  lemma HeadRule(format: Format, count: nat)
    ensures count <= 1 ==> HeadOf(format, count) == []
  {
  }

  lemma NextResponse<S>(items: seq<Item<S>>, i: nat, format: Format, db: S, start: seq<byte>, head: seq<byte>)
    requires i < |items|
    ensures start + (head + Responses(items, i, format, db))
            + (Separator(format, i) + Joined(items[i].render(Seen(items, i, db))))
            == start + (head + Responses(items, i + 1, format, db))
  {
    hide Seen, Joined, Separator;
    Regroup(start, head, Responses(items, i, format, db), Separator(format, i),
            Joined(items[i].render(Seen(items, i, db))));
  }

  lemma Regroup(start: seq<byte>, head: seq<byte>, a: seq<byte>, b: seq<byte>, c: seq<byte>)
    ensures start + (head + a) + (b + c) == start + (head + (a + b + c))
  {
  }

  lemma {:induction false} ResponsesGrow<S>(items: seq<Item<S>>, i: nat, format: Format, db: S)
    requires i <= |items|
    ensures |Responses(items, i, format, db)| <= |Responses(items, |items|, format, db)|
    ensures i > 0 ==> |Responses(items, i, format, db)|
                      == |Responses(items, i - 1, format, db)| + |Separator(format, i - 1)
                      + Joined(items[i - 1].render(Seen(items, i - 1, db)))|
    decreases |items| - i
  {
    hide Seen, Joined;
    if i < |items| {
      ResponsesGrow(items, i + 1, format, db);
    }
  }

  // ---- one request ------------------------------------------------------------------------------------------------

  /** Where a request starts: nothing held. */
  function Starting(clock: nat, writes: nat): Now {
    Now(clock, Held([], false, writes))
  }

  /**
   The commit is reached and made: the connection answers every time up to it, and the client takes every write made
   before it.
   */
  ghost predicate Commits<S(!new)>(items: seq<Item<S>>, format: Format, db: S, now: Now, fails: nat -> bool,
                                   c: Client) {
    Fine(fails, now.clock, Asks(Script(items, format, db)))
    && PushAll(now.held, Puts(Script(items, format, db)), c).Some?
  }

  /** And then the client takes the end of the body too. */
  ghost predicate Delivers<S(!new)>(items: seq<Item<S>>, format: Format, db: S, now: Now, c: Client) {
    var h := PushAll(now.held, Puts(Script(items, format, db)), c);
    h.Some? && Ended(h.value, format, |items|, c).Some?
  }

  /**
   Execute: one transaction for all items, committed before the last byte is let go. An error reports whether
   bytes had left; `done` says whether the commit went through. So an error leaves the request committed if and only
   if everything goes well through the commit and the client then falls short of the end of the body.
   */
  method Execute<S(!new)>(items: seq<Item<S>>, format: Format, buffer: nat, conn: Conn<S>, sink: Sink)
  returns (ok: bool, started: bool, ghost done: bool)
    modifies conn, sink
    ensures conn.committed == if done then After(items, old(conn.committed)) else old(conn.committed)
    ensures ok ==> done && sink.delivered == old(sink.delivered) + Body(items, format, old(conn.committed))
    ensures !ok && !started ==> !done && sink.delivered == old(sink.delivered)
    ensures |Body(items, format, old(conn.committed))| <= buffer && !done ==> sink.delivered == old(sink.delivered)
    ensures old(sink.delivered) <= sink.delivered
    ensures var now, c := old(Starting(conn.clock, sink.writes)), Client(sink.accepts, buffer);
            && (done <==> Commits(items, format, old(conn.committed), now, conn.fails, c))
            && (ok <==> done && Delivers(items, format, old(conn.committed), now, c))
  {
    hide Script, Inside, Play, PushAll, Fine, Does, Asking, After, Body, Ended;
    var cw := new HoldWriter(sink, buffer);
    ghost var db, c := conn.committed, Client(sink.accepts, buffer);
    ghost var first := Moment(cw, conn);
    PlayIff(Script(items, format, db), first, conn.fails, c);
    done := false;
    ok := Prepare(items, conn);
    ghost var prepared := Moment(cw, conn);
    DoesAsking(PrepareSteps(items), first, conn.fails, c);
    if !ok {
      ScriptStops(items, format, db, first, prepared, conn.fails, c);
      return false, cw.released, false;
    }
    DoesAsk(prepared, conn.fails, c);
    ok := conn.Begin();
    ghost var begun := Moment(cw, conn);
    if ok {
      ok, done := InTransaction(items, format, cw, conn);
      ScriptGoes(items, format, db, first, prepared, begun, done, conn.fails, c);
    } else {
      ScriptEnds(items, format, db, first, prepared, begun, conn.fails, c);
    }
    if !ok {
      conn.Rollback();
    }
    started := cw.released;
  }

  /**
   Binding each encoder to the session, and the temp tables of the writes: before the transaction, no effect on data.
   */
  method Prepare<S(!new)>(items: seq<Item<S>>, conn: Conn<S>) returns (ok: bool)
    modifies conn`clock
    ensures ok <==> Fine(conn.fails, old(conn.clock), PrepareSteps(items))
    ensures ok ==> conn.clock == old(conn.clock) + PrepareSteps(items)
  {
    var writes := false;
    assert !AnyWrite(items[..0]);
    for i := 0 to |items|
      invariant conn.clock == old(conn.clock) + i && Fine(conn.fails, old(conn.clock), i)
      invariant writes == AnyWrite(items[..i])
    {
      ok := conn.Step();
      if !ok { return; }
      assert items[..i + 1][..i] == items[..i];
      writes := writes || items[i].isWrite;
    }
    assert items[..|items|] == items;
    ok := true;
    if writes {
      ok := conn.Step();
    }
  }

  /** The writes, the reads, the commit and the end of the body. */
  method InTransaction<S(!new)>(items: seq<Item<S>>, format: Format, cw: HoldWriter, conn: Conn<S>)
  returns (ok: bool, ghost done: bool)
    requires cw.Valid() && !cw.released && cw.buf == [] && conn.working == Some(conn.committed)
    modifies cw`buf, cw`released, cw.sink, conn
    ensures conn.committed == if done then After(items, old(conn.committed)) else old(conn.committed)
    ensures ok ==> done && cw.released && cw.sink.delivered
                   == old(cw.sink.delivered) + Body(items, format, old(conn.committed))
    ensures !ok && !cw.released ==> !done && cw.sink.delivered == old(cw.sink.delivered)
    ensures |Body(items, format, old(conn.committed))| <= cw.limit && !done ==>
              cw.sink.delivered == old(cw.sink.delivered)
    ensures old(cw.sink.delivered) <= cw.sink.delivered
    ensures var c := Client(cw.sink.accepts, cw.limit);
            var p := Play(Inside(items, format, old(conn.committed)), old(Moment(cw, conn)), conn.fails, c);
            done == p.Some? && (done ==> ok == Ended(p.value.held, format, |items|, c).Some?)
  {
    hide After, Responses, HeadOf, Play, Inside, Push, Flushed, Fine;
    ghost var db := conn.committed;
    done := false;
    ok := UntilCommit(items, format, cw, conn);
    if !ok { return; }
    done := true;
    if |items| > 1 && format == Json {
      ok := cw.Write([0x5d]);
      if !ok { return; }
    }
    ok := cw.Flush();
  }

  /** The writes, the reads and the commit. */
  method UntilCommit<S(!new)>(items: seq<Item<S>>, format: Format, cw: HoldWriter, conn: Conn<S>) returns (ok: bool)
    requires cw.Valid() && !cw.released && cw.buf == [] && conn.working == Some(conn.committed)
    modifies cw`buf, cw`released, cw.sink, conn
    ensures cw.Valid()
    ensures conn.committed == if ok then After(items, old(conn.committed)) else old(conn.committed)
    ensures ok ==> cw.Taken() == old(cw.sink.delivered)
                   + (HeadOf(format, |items|) + Responses(items, |items|, format, old(conn.committed)))
    ensures !cw.released ==> cw.sink.delivered == old(cw.sink.delivered)
    ensures |HeadOf(format, |items|) + Responses(items, |items|, format, old(conn.committed))| <= cw.limit ==>
              !cw.released
    ensures old(cw.sink.delivered) <= cw.sink.delivered
    ensures Does(Inside(items, format, old(conn.committed)), old(Moment(cw, conn)), Moment(cw, conn), ok, conn.fails,
                 Client(cw.sink.accepts, cw.limit))
  {
    hide After, Responses, HeadOf, Play, Inside, Push, Does, Fine, ResponseActs, Asking, WriteSteps;
    ghost var db, c := conn.committed, Client(cw.sink.accepts, cw.limit);
    ghost var first := Moment(cw, conn);
    var buffered;
    ok, buffered := WritePhase(items, conn);
    ghost var written := Moment(cw, conn);
    DoesAsking(WriteSteps(items), first, conn.fails, c);
    if !ok {
      InsideStops(items, format, db, first, written, conn.fails, c);
      return;
    }
    DoesAsk(written, conn.fails, c);
    ok := conn.Step();
    ghost var compiled := Moment(cw, conn);
    if !ok {
      InsideHalts(items, format, db, first, written, compiled, conn.fails, c);
      return;
    }
    ok := WriteResponses(cw, conn, items, format, buffered, db);
    ghost var answered := Moment(cw, conn);
    if !ok {
      InsideCut(items, format, db, first, written, compiled, answered, conn.fails, c);
      return;
    }
    DoesAsk(answered, conn.fails, c);
    ok := conn.Commit();
    InsideGoes(items, format, db, first, written, compiled, answered, Moment(cw, conn), ok, conn.fails, c);
  }

  // ---- the script, put together -----------------------------------------------------------------------------------

  lemma InsideStops<S(!new)>(items: seq<Item<S>>, format: Format, db: S, first: Now, after: Now, fails: nat -> bool,
                             c: Client)
    requires Does(Asking(WriteSteps(items)), first, after, false, fails, c)
    ensures Does(Inside(items, format, db), first, after, false, fails, c)
  {
    hide Does, ResponseActs, Asking, Play;
    DoesStop(Asking(WriteSteps(items)), [Ask] + (ResponseActs(items, |items|, format, db) + [Ask]), first, after, fails,
             c);
  }

  lemma InsideHalts<S(!new)>(items: seq<Item<S>>, format: Format, db: S, first: Now, written: Now, after: Now,
                             fails: nat -> bool, c: Client)
    requires Does(Asking(WriteSteps(items)), first, written, true, fails, c)
             && Does([Ask], written, after, false, fails, c)
    ensures Does(Inside(items, format, db), first, after, false, fails, c)
  {
    hide Does, ResponseActs, Asking, Play;
    DoesStop([Ask], ResponseActs(items, |items|, format, db) + [Ask], written, after, fails, c);
    DoesBoth(Asking(WriteSteps(items)), [Ask] + (ResponseActs(items, |items|, format, db) + [Ask]), first, written,
             after, false, fails, c);
  }

  lemma InsideCut<S(!new)>(items: seq<Item<S>>, format: Format, db: S, first: Now, written: Now, compiled: Now,
                           after: Now, fails: nat -> bool, c: Client)
    requires Does(Asking(WriteSteps(items)), first, written, true, fails, c)
             && Does([Ask], written, compiled, true, fails, c)
    requires Does(ResponseActs(items, |items|, format, db), compiled, after, false, fails, c)
    ensures Does(Inside(items, format, db), first, after, false, fails, c)
  {
    hide Does, ResponseActs, Asking, Play;
    DoesStop(ResponseActs(items, |items|, format, db), [Ask], compiled, after, fails, c);
    DoesBoth([Ask], ResponseActs(items, |items|, format, db) + [Ask], written, compiled, after, false, fails, c);
    DoesBoth(Asking(WriteSteps(items)), [Ask] + (ResponseActs(items, |items|, format, db) + [Ask]), first, written,
             after, false, fails, c);
  }

  lemma InsideGoes<S(!new)>(items: seq<Item<S>>, format: Format, db: S, first: Now, written: Now, compiled: Now,
                            answered: Now, after: Now, ok: bool, fails: nat -> bool, c: Client)
    requires Does(Asking(WriteSteps(items)), first, written, true, fails, c)
             && Does([Ask], written, compiled, true, fails, c)
    requires Does(ResponseActs(items, |items|, format, db), compiled, answered, true, fails, c)
             && Does([Ask], answered, after, ok, fails, c)
    ensures Does(Inside(items, format, db), first, after, ok, fails, c)
  {
    hide Does, ResponseActs, Asking, Play;
    DoesBoth(ResponseActs(items, |items|, format, db), [Ask], compiled, answered, after, ok, fails, c);
    DoesBoth([Ask], ResponseActs(items, |items|, format, db) + [Ask], written, compiled, after, ok, fails, c);
    DoesBoth(Asking(WriteSteps(items)), [Ask] + (ResponseActs(items, |items|, format, db) + [Ask]), first, written,
             after, ok, fails, c);
  }

  lemma ScriptStops<S(!new)>(items: seq<Item<S>>, format: Format, db: S, first: Now, after: Now, fails: nat -> bool,
                             c: Client)
    requires Does(Asking(PrepareSteps(items)), first, after, false, fails, c)
    ensures Play(Script(items, format, db), first, fails, c).None?
  {
    hide Inside, Asking, Play;
    DoesStop(Asking(PrepareSteps(items)), [Ask] + Inside(items, format, db), first, after, fails, c);
  }

  lemma ScriptEnds<S(!new)>(items: seq<Item<S>>, format: Format, db: S, first: Now, prepared: Now, after: Now,
                            fails: nat -> bool, c: Client)
    requires Does(Asking(PrepareSteps(items)), first, prepared, true, fails, c)
             && Does([Ask], prepared, after, false, fails, c)
    ensures Play(Script(items, format, db), first, fails, c).None?
  {
    hide Inside, Asking, Play;
    DoesStop([Ask], Inside(items, format, db), prepared, after, fails, c);
    DoesBoth(Asking(PrepareSteps(items)), [Ask] + Inside(items, format, db), first, prepared, after, false, fails, c);
  }

  lemma ScriptGoes<S(!new)>(items: seq<Item<S>>, format: Format, db: S, first: Now, prepared: Now, begun: Now,
                            done: bool, fails: nat -> bool, c: Client)
    requires Does(Asking(PrepareSteps(items)), first, prepared, true, fails, c)
             && Does([Ask], prepared, begun, true, fails, c)
    requires done == Play(Inside(items, format, db), begun, fails, c).Some?
    ensures Play(Script(items, format, db), first, fails, c) == Play(Inside(items, format, db), begun, fails, c)
  {
    hide Inside, Asking, Play;
    PlayJoin([Ask], Inside(items, format, db), prepared, fails, c);
    PlayJoin(Asking(PrepareSteps(items)), [Ask] + Inside(items, format, db), first, fails, c);
  }

  // ---- an error after the commit ----------------------------------------------------------------------------------

  lemma {:induction false} PutsJoin(a: seq<Act>, b: seq<Act>)
    ensures Puts(a + b) == Puts(a) + Puts(b)
    decreases |b|
  {
    if b == [] {
      assert a + b == a;
    } else {
      assert (a + b)[..|a + b| - 1] == a + b[..|b| - 1];
      PutsJoin(a, b[..|b| - 1]);
    }
  }

  lemma {:induction false} AskingPuts(count: nat)
    ensures Puts(Asking(count)) == []
  {
    if count > 0 {
      AskingPuts(count - 1);
      assert Asking(count)[..|Asking(count)| - 1] == Asking(count - 1);
    }
  }

  lemma OnePut(a: Act)
    ensures Puts([a]) == if a.Put? then [a.p] else []
  {
    assert [a][..0] == [];
  }

  lemma {:induction false} ItemPuts(chunks: seq<seq<byte>>, live: bool)
    ensures Puts(ItemActs(chunks, live)) == chunks
  {
    hide Puts;
    if chunks == [] {
      AskingPuts(0);
    } else {
      var init, last := chunks[..|chunks| - 1], chunks[|chunks| - 1];
      var ask := if live then [Ask] else [];
      ItemPuts(init, live);
      PutsJoin(ItemActs(init, live) + ask, [Put(last)]);
      PutsJoin(ItemActs(init, live), ask);
      OnePut(Ask);
      OnePut(Put(last));
      AskingPuts(0);
      assert chunks == init + [last];
    }
  }

  lemma {:induction false} JoinedJoin(a: seq<seq<byte>>, b: seq<seq<byte>>)
    ensures Joined(a + b) == Joined(a) + Joined(b)
    decreases |b|
  {
    if b == [] {
      assert a + b == a;
    } else {
      var init, last := b[..|b| - 1], b[|b| - 1];
      assert (a + b)[..|a + b| - 1] == a + init && (a + b)[|a + b| - 1] == last;
      JoinedJoin(a, init);
      Associates(Joined(a), Joined(init), last);
    }
  }

  lemma Associates(a: seq<byte>, b: seq<byte>, c: seq<byte>)
    ensures (a + b) + c == a + (b + c)
  {
  }

  lemma JoinedOne(p: seq<byte>)
    ensures Joined([p]) == p && Joined([]) == []
  {
    assert [p][..0] == [];
  }

  lemma OnePuts<S>(items: seq<Item<S>>, i: nat, format: Format, db: S)
    requires i < |items|
    ensures Joined(Puts(OneActs(items, i, format, db)))
            == Separator(format, i) + Joined(items[i].render(Seen(items, i, db)))
  {
    hide Puts, Joined, ItemActs, Seen;
    var chunks := items[i].render(Seen(items, i, db));
    PutsJoin(SeparatorActs(format, i), ItemActs(chunks, !Aside(items[i])));
    ItemPuts(chunks, !Aside(items[i]));
    JoinedJoin(Puts(SeparatorActs(format, i)), chunks);
    OnePut(Put([0x2c]));
    AskingPuts(0);
    JoinedOne([0x2c]);
  }

  /** What is put out before the commit is the body but for its end. */
  lemma {:induction false} ResponsePuts<S>(items: seq<Item<S>>, i: nat, format: Format, db: S)
    requires i <= |items|
    ensures Joined(Puts(ResponseActs(items, i, format, db)))
            == HeadOf(format, |items|) + Responses(items, i, format, db)
    decreases i
  {
    hide Puts, Joined, OneActs, HeadOf, Separator, Seen;
    if i == 0 {
      HeadRule(format, |items|);
      OnePut(Put(HeadOf(format, |items|)));
      AskingPuts(0);
      JoinedOne(HeadOf(format, |items|));
    } else {
      ResponsePuts(items, i - 1, format, db);
      PutsJoin(ResponseActs(items, i - 1, format, db), OneActs(items, i - 1, format, db));
      JoinedJoin(Puts(ResponseActs(items, i - 1, format, db)), Puts(OneActs(items, i - 1, format, db)));
      OnePuts(items, i - 1, format, db);
      HeadFirst(HeadOf(format, |items|), Responses(items, i - 1, format, db), Separator(format, i - 1),
                Joined(items[i - 1].render(Seen(items, i - 1, db))));
    }
  }

  lemma HeadFirst(head: seq<byte>, a: seq<byte>, b: seq<byte>, c: seq<byte>)
    ensures (head + a) + (b + c) == head + (a + b + c)
  {
  }

  lemma ScriptPuts<S>(items: seq<Item<S>>, format: Format, db: S)
    ensures Joined(Puts(Script(items, format, db))) == HeadOf(format, |items|) + Responses(items, |items|, format, db)
  {
    hide Puts, Joined, ResponseActs, HeadOf, Responses, Asking;
    var acts := ResponseActs(items, |items|, format, db);
    ResponsePuts(items, |items|, format, db);
    OnePut(Ask);
    AskingPuts(WriteSteps(items));
    AskingPuts(PrepareSteps(items));
    PutsJoin(acts, [Ask]);
    PutsJoin([Ask], acts + [Ask]);
    PutsJoin(Asking(WriteSteps(items)), [Ask] + (acts + [Ask]));
    PutsJoin([Ask], Inside(items, format, db));
    PutsJoin(Asking(PrepareSteps(items)), [Ask] + Inside(items, format, db));
    assert [] + ([] + ([] + ([] + (Puts(acts) + [])))) == Puts(acts);
  }

  lemma {:induction false} PushAllFits(h: Held, ps: seq<seq<byte>>, c: Client)
    requires !h.released && |h.buf| + |Joined(ps)| <= c.limit
    ensures PushAll(h, ps, c) == Some(h.(buf := h.buf + Joined(ps)))
  {
    if ps == [] {
      assert h.buf + [] == h.buf;
    } else {
      PushAllFits(h, ps[..|ps| - 1], c);
      assert h.buf + Joined(ps) == h.buf + Joined(ps[..|ps| - 1]) + ps[|ps| - 1];
    }
  }

  lemma {:induction false} PushAllTakes(h: Held, ps: seq<seq<byte>>, c: Client, m: nat)
    requires |h.buf| + |Joined(ps)| <= m && forall n :: c.accepts(n) >= m
    ensures var r := PushAll(h, ps, c); r.Some? && |r.value.buf| <= |h.buf| + |Joined(ps)|
  {
    if ps != [] {
      PushAllTakes(h, ps[..|ps| - 1], c, m);
    }
  }

  /**
   A body that fits the buffer is let go in one write after the commit, if there is one, and cut there if the client
   takes less.
   */
  lemma FitsIff<S(!new)>(items: seq<Item<S>>, format: Format, db: S, now: Now, fails: nat -> bool, c: Client)
    requires now == Starting(now.clock, now.held.writes) && |Body(items, format, db)| <= c.limit
    ensures Commits(items, format, db, now, fails, c) <==> Fine(fails, now.clock, Asks(Script(items, format, db)))
    ensures Delivers(items, format, db, now, c) <==> Body(items, format, db) == []
                                                     || c.accepts(now.held.writes) >= |Body(items, format, db)|
  {
    hide Script, Joined, HeadOf, Responses, Fine, Asks, Puts;
    ScriptPuts(items, format, db);
    PushAllFits(now.held, Puts(Script(items, format, db)), c);
    var before := HeadOf(format, |items|) + Responses(items, |items|, format, db);
    assert [] + before == before;
    assert before + [] == before;
  }

  /** A client that takes whatever it is given never leaves an error behind a commit. */
  lemma TakesAll<S(!new)>(items: seq<Item<S>>, format: Format, db: S, now: Now, c: Client)
    requires now == Starting(now.clock, now.held.writes) && forall n :: c.accepts(n) >= |Body(items, format, db)|
    ensures Delivers(items, format, db, now, c)
  {
    hide Script, Joined, HeadOf, Responses, Puts, PushAll;
    ScriptPuts(items, format, db);
    PushAllTakes(now.held, Puts(Script(items, format, db)), c, |Body(items, format, db)|);
  }

  /**
   Not every error means a rollback: one write, and a client that takes nothing, which is found out after the commit.
   */
  method CutAfterCommit() returns (ok: bool, started: bool, ghost done: bool, conn: Conn<int>, sink: Sink)
    ensures !ok && started && done && conn.committed == 1
  {
    hide Script;
    conn := new Conn<int>(_ => false, 0);
    sink := new Sink(_ => 0);
    var items := [Item(true, false, false, (x: int) => x + 1, (_: int) => [[0x31]])];
    ghost var now, c := Starting(conn.clock, sink.writes), Client(sink.accepts, 10);
    OneWrite(items);
    FitsIff(items, Json, 0, now, conn.fails, c);
    ok, started, done := Execute(items, Json, 10, conn, sink);
  }

  lemma OneWrite(items: seq<Item<int>>)
    requires items == [Item(true, false, false, (x: int) => x + 1, (_: int) => [[0x31]])]
    ensures After(items, 0) == 1 && Body(items, Json, 0) == [0x31]
  {
    hide Seen;
    assert items[..0] == [];
    JoinedOne([0x31]);
    assert Responses(items, 0, Json, 0) == [];
    assert items[0].render(Seen(items, 0, 0)) == [[0x31]];
    assert Responses(items, 1, Json, 0) == [0x31];
  }
}
