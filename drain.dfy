/**
 * The queue drain `processar_fila` (ima/app.py:114-171) as a function of its
 * inputs, and what it guarantees.
 *
 * The broker and the database are outside the model: whether a connection
 * opens, what the passive declare reports, what each `basic_get` returns and
 * whether each save finds the database are inputs (an `Environment`). What the
 * drain does is recorded as the broker calls it issues and the rows it
 * inserts (an `Effects`).
 */
module Consumer {

  import opened Wrappers
  import opened Message
  import opened Dates

  /** The global `processando_fila`: never assigned before its first read. */
  datatype Flag = Unset | Off | On

  /** What one `basic_get` gave back. */
  datatype Delivery =
    | Delivered(body: string)  // a message whose body decodes as UTF-8
    | Undecodable              // a message whose body is not UTF-8
    | Empty                    // no message: the queue was empty at that instant
    | Fault                    // the call raised

  /** A call the application makes on the broker. */
  datatype BrokerCall =
    | Connect                  // conectar_rabbitmq
    | DeclarePassive           // queue_declare(passive=True)
    | DeclareDurable           // queue_declare(durable=True)
    | Get                      // basic_get(auto_ack=False)
    | Ack                      // basic_ack
    | Nack(requeue: bool)      // basic_nack
    | Publish(body: string)    // basic_publish with delivery_mode=2
    | Close                    // channel.close

  /** One row of `tabela_mensagens`. */
  datatype Row = Row(uuid: string, data: string, hora: string, nome: string)

  /** The answers of the outside world to one drain. */
  datatype Environment = Environment(
    brokerUp: bool,              // conectar_rabbitmq returns a channel
    declareOk: bool,             // the passive declare returns instead of raising
    depth: nat,                  // the message_count it reports
    deliveries: seq<Delivery>,   // successive basic_get results; Empty past the end
    storeUp: seq<bool>)          // whether conectar_mysql succeeds, per iteration; false past the end

  /** The broker calls issued and the table, as a drain leaves them. */
  datatype Effects = Effects(calls: seq<BrokerCall>, table: seq<Row>)

  function DeliveryAt(env: Environment, i: nat): Delivery
  {
    if i < |env.deliveries| then env.deliveries[i] else Empty
  }

  function StoreUpAt(env: Environment, i: nat): bool
  {
    i < |env.storeUp| && env.storeUp[i]
  }

  /**
   * The rows `salvar_mensagem_no_banco` inserts (ima/app.py:193-211): one
   * row with the reformatted date when the date converts and the database
   * is reachable, none otherwise. Nothing is raised to the caller.
   */
  function SaveRows(f: Fields, storeUp: bool): seq<Row>
  {
    match Reformat(f.data)
    case None => []
    case Some(iso) => if storeUp then [Row(f.uuid, iso, f.hora, f.nome)] else []
  }

  /**
   * The truth value of what `salvar_mensagem_no_banco` returns: it has no
   * `return` statement, so it returns `None`, which is false.
   */
  function SaveResult(f: Fields, storeUp: bool): bool
  {
    false
  }

  /**
   * The calls after one non-raising `basic_get` and the rows it inserts
   * (ima/app.py:140-162).
   */
  function Handle(d: Delivery, storeUp: bool): Effects
  {
    match d
    case Delivered(body) =>
      (match Extract(body)
       case None => Effects([Nack(true)], [])
       case Some(f) =>
         Effects([if SaveResult(f, storeUp) then Ack else Nack(false)], SaveRows(f, storeUp)))
    case Undecodable => Effects([Nack(true)], [])
    case Empty => Effects([], [])
    case Fault => Effects([], [])
  }

  /**
   * Marks the delivery a proof is currently handling; always true. It is the
   * trigger of ActsAsHandle, so that the definition of Handle is brought in
   * only for deliveries a proof names, not for every delivery the loop
   * definition mentions.
   */
  ghost predicate Handling(d: Delivery, storeUp: bool)
  {
    true
  }

  /** How one non-raising `basic_get` result is dealt with, given whether the database is up. */
  type Handler = (Delivery, bool) -> Effects

  /**
   * The loop at ima/app.py:136-164 with `remaining` iterations left, the
   * next one being iteration `i`, each delivery dealt with by `handle`. A
   * raising `basic_get` ends the drain.
   */
  function Loop(handle: Handler, env: Environment, i: nat, remaining: nat, st: Effects): Effects
    decreases remaining
  {
    if remaining == 0 then st
    else
      var d := DeliveryAt(env, i);
      if d.Fault? then Effects(st.calls + [Get], st.table)
      else
        var e := handle(d, StoreUpAt(env, i));
        Loop(handle, env, i + 1, remaining - 1, Effects(st.calls + [Get] + e.calls, st.table + e.table))
  }

  /**
   * One iteration of the loop whose `basic_get` returned, handled with
   * effects `e`, leaves the state `after`.
   */
  lemma LoopStep(handle: Handler, env: Environment, i: nat, n: nat, st: Effects, e: Effects, after: Effects)
    requires n > 0 && !DeliveryAt(env, i).Fault?
    requires e == handle(DeliveryAt(env, i), StoreUpAt(env, i))
    requires after == Effects(st.calls + [Get] + e.calls, st.table + e.table)
    ensures Loop(handle, env, i, n, st) == Loop(handle, env, i + 1, n - 1, after)
  {
  }

  /** The iteration whose `basic_get` raised ends the loop. */
  lemma LoopFault(handle: Handler, env: Environment, i: nat, n: nat, st: Effects)
    requires n > 0 && DeliveryAt(env, i).Fault?
    ensures Loop(handle, env, i, n, st) == Effects(st.calls + [Get], st.table)
  {
  }

  /** The guard at ima/app.py:118: reading an unset flag raises, a set one stops a non-forced call. */
  predicate GuardPasses(flag: Flag, force: bool)
  {
    flag == Off || (flag == On && force)
  }

  /** One call of `processar_fila(force)` from state `st`, each delivery dealt with by `handle`. */
  function DrainWith(handle: Handler, flag: Flag, force: bool, env: Environment, st: Effects): Effects
  {
    if !GuardPasses(flag, force) then st
    else if !env.brokerUp then Effects(st.calls + [Connect], st.table)
    else if !env.declareOk then Effects(st.calls + [Connect, DeclarePassive], st.table)
    else Loop(handle, env, 0, env.depth, Effects(st.calls + [Connect, DeclarePassive], st.table))
  }

  /** One call of `processar_fila(force)` from state `st`. */
  function Drain(flag: Flag, force: bool, env: Environment, st: Effects): Effects
  {
    DrainWith(Handle, flag, force, env, st)
  }

  /** A row whose date column holds a valid ISO 8601 calendar date. */
  predicate IsoDated(row: Row)
  {
    ParseIso(row.data).Some?
  }

  /** No `basic_get` raises in iterations `i` to `i + n - 1`. */
  predicate FaultFree(env: Environment, i: nat, n: nat)
  {
    forall j :: i <= j < i + n ==> !DeliveryAt(env, j).Fault?
  }

  /** A handler that agrees with Handle on every delivery a proof marks as handled. */
  ghost predicate ActsAsHandle(handle: Handler)
  {
    forall d, up {:trigger Handling(d, up)} :: handle(d, up) == Handle(d, up)
  }

  /** A handler that issues no get and no ack. */
  ghost predicate NoGetNoAck(handle: Handler)
  {
    forall d, up :: Get !in handle(d, up).calls && Ack !in handle(d, up).calls
  }

  /** A handler whose every row holds a valid ISO date. */
  ghost predicate RowsIsoDated(handle: Handler)
  {
    forall d, up, k :: 0 <= k < |handle(d, up).table| ==> IsoDated(handle(d, up).table[k])
  }

  /** A handler that inserts no more rows than it discards. */
  ghost predicate RowsDiscarded(handle: Handler)
  {
    forall d, up :: |handle(d, up).table| <= multiset(handle(d, up).calls)[Nack(false)]
  }

  /**
   * Handling one delivery issues at most one nack, never a get, never an
   * ack; a `basic_get` that found the queue empty issues nothing and
   * inserts nothing (the `if method:` at ima/app.py:140).
   */
  lemma HandleCalls(d: Delivery, storeUp: bool)
    ensures var e := Handle(d, storeUp);
      Get !in e.calls && Ack !in e.calls && |e.calls| <= 1 && |e.table| <= 1 &&
      (e.table != [] ==> e.calls == [Nack(false)])
    ensures var e := Handle(d, storeUp);
      e.calls == [] || e.calls == [Nack(true)] || e.calls == [Nack(false)]
    ensures d.Empty? ==> Handle(d, storeUp) == Effects([], [])
  {
  }

  /**
   * A body that fails to decode as UTF-8, or whose fields fail to extract,
   * requeues the message and inserts nothing (ima/app.py:159-162).
   */
  lemma ExtractionFailureRequeues(body: string, storeUp: bool)
    requires Extract(body).None?
    ensures Handle(Delivered(body), storeUp) == Effects([Nack(true)], [])
    ensures Handle(Undecodable, storeUp) == Effects([Nack(true)], [])
  {
  }

  /**
   * A message whose fields extract is always nacked without requeue, never
   * acked; it inserts one row exactly when its date converts and the database
   * is reachable, and that row stores the same calendar day in ISO form
   * together with the message's other fields.
   */
  lemma ExtractedMessageDiscarded(body: string, storeUp: bool)
    requires Extract(body).Some?
    ensures var f := Extract(body).value;
      var e := Handle(Delivered(body), storeUp);
      e.calls == [Nack(false)] &&
      (|e.table| == 1 <==> storeUp && ParseDayMonthYear(f.data).Some?) &&
      (e.table == [] || |e.table| == 1) &&
      (|e.table| == 1 ==>
        e.table[0].uuid == f.uuid && e.table[0].hora == f.hora && e.table[0].nome == f.nome &&
        ParseIso(e.table[0].data) == ParseDayMonthYear(f.data))
  {
    ReformatMeaning(Extract(body).value.data);
  }

  /** The handler of ima/app.py:140-162 has the three properties the loop lemmas use. */
  lemma HandleProperties()
    ensures NoGetNoAck(Handle) && RowsIsoDated(Handle) && RowsDiscarded(Handle)
  {
    forall d, up ensures Get !in Handle(d, up).calls && Ack !in Handle(d, up).calls {
      HandleCalls(d, up);
    }
    forall d, up, k | 0 <= k < |Handle(d, up).table| ensures IsoDated(Handle(d, up).table[k]) {
      ExtractedMessageDiscarded(d.body, up);
    }
    forall d, up ensures |Handle(d, up).table| <= multiset(Handle(d, up).calls)[Nack(false)] {
      HandleCalls(d, up);
    }
  }

  /** The loop only appends, to the call log and to the table. */
  lemma {:induction false} LoopAppends(handle: Handler, env: Environment, i: nat, n: nat, st: Effects)
    ensures var r := Loop(handle, env, i, n, st); st.calls <= r.calls && st.table <= r.table
    decreases n
  {
    if n > 0 && !DeliveryAt(env, i).Fault? {
      var e := handle(DeliveryAt(env, i), StoreUpAt(env, i));
      LoopAppends(handle, env, i + 1, n - 1, Effects(st.calls + [Get] + e.calls, st.table + e.table));
    }
  }

  /** A loop whose handler never acks never acks. */
  lemma {:induction false} LoopNeverAcks(handle: Handler, env: Environment, i: nat, n: nat, st: Effects)
    requires NoGetNoAck(handle)
    ensures var r := Loop(handle, env, i, n, st);
      |st.calls| <= |r.calls| && Ack !in r.calls[|st.calls|..]
    decreases n
  {
    LoopAppends(handle, env, i, n, st);
    var r := Loop(handle, env, i, n, st);
    if n > 0 && !DeliveryAt(env, i).Fault? {
      var e := handle(DeliveryAt(env, i), StoreUpAt(env, i));
      var st' := Effects(st.calls + [Get] + e.calls, st.table + e.table);
      LoopNeverAcks(handle, env, i + 1, n - 1, st');
      LoopAppends(handle, env, i + 1, n - 1, st');
      assert r.calls[|st.calls|..] == [Get] + e.calls + r.calls[|st'.calls|..];
    } else if n > 0 {
      assert r.calls[|st.calls|..] == [Get];
    }
  }

  /**
   * The loop issues one `basic_get` per iteration, whatever the get returns,
   * until one raises: exactly `n` gets when none raises, never more than `n`.
   */
  lemma {:induction false} LoopGets(handle: Handler, env: Environment, i: nat, n: nat, st: Effects)
    requires NoGetNoAck(handle)
    ensures var r := Loop(handle, env, i, n, st);
      |st.calls| <= |r.calls| &&
      multiset(r.calls[|st.calls|..])[Get] <= n &&
      (FaultFree(env, i, n) ==> multiset(r.calls[|st.calls|..])[Get] == n)
    decreases n
  {
    LoopAppends(handle, env, i, n, st);
    var r := Loop(handle, env, i, n, st);
    if n > 0 {
      if DeliveryAt(env, i).Fault? {
        assert r.calls[|st.calls|..] == [Get];
      } else {
        var e := handle(DeliveryAt(env, i), StoreUpAt(env, i));
        var st' := Effects(st.calls + [Get] + e.calls, st.table + e.table);
        LoopGets(handle, env, i + 1, n - 1, st');
        LoopAppends(handle, env, i + 1, n - 1, st');
        assert r.calls[|st.calls|..] == [Get] + e.calls + r.calls[|st'.calls|..];
        assert multiset(e.calls)[Get] == 0;
        if FaultFree(env, i, n) {
          assert FaultFree(env, i + 1, n - 1);
        }
      }
    } else {
      assert r.calls[|st.calls|..] == [];
    }
  }

  /** Every row the loop inserts holds a valid ISO date when every row its handler makes does. */
  lemma {:induction false} LoopRowsValid(handle: Handler, env: Environment, i: nat, n: nat, st: Effects)
    requires RowsIsoDated(handle)
    ensures var r := Loop(handle, env, i, n, st);
      |st.table| <= |r.table| &&
      forall k :: |st.table| <= k < |r.table| ==> IsoDated(r.table[k])
    decreases n
  {
    LoopAppends(handle, env, i, n, st);
    var r := Loop(handle, env, i, n, st);
    if n > 0 && !DeliveryAt(env, i).Fault? {
      var d := DeliveryAt(env, i);
      var e := handle(d, StoreUpAt(env, i));
      var st' := Effects(st.calls + [Get] + e.calls, st.table + e.table);
      LoopRowsValid(handle, env, i + 1, n - 1, st');
      LoopAppends(handle, env, i + 1, n - 1, st');
      forall k | |st.table| <= k < |r.table| ensures IsoDated(r.table[k]) {
        if k < |st'.table| {
          assert r.table[k] == st'.table[k] == e.table[k - |st.table|];
        }
      }
    }
  }

  /**
   * When each handled delivery inserts no more rows than it discards, so
   * does the loop.
   */
  lemma {:induction false} LoopRowsBound(handle: Handler, env: Environment, i: nat, n: nat, st: Effects)
    requires RowsDiscarded(handle)
    ensures var r := Loop(handle, env, i, n, st);
      |st.calls| <= |r.calls| && |st.table| <= |r.table| &&
      |r.table| - |st.table| <= multiset(r.calls[|st.calls|..])[Nack(false)]
    decreases n
  {
    LoopAppends(handle, env, i, n, st);
    var r := Loop(handle, env, i, n, st);
    if n > 0 && !DeliveryAt(env, i).Fault? {
      var e := handle(DeliveryAt(env, i), StoreUpAt(env, i));
      var st' := Effects(st.calls + [Get] + e.calls, st.table + e.table);
      LoopRowsBound(handle, env, i + 1, n - 1, st');
      LoopAppends(handle, env, i + 1, n - 1, st');
      assert r.calls[|st.calls|..] == [Get] + e.calls + r.calls[|st'.calls|..];
    } else if n > 0 {
      assert r.calls[|st.calls|..] == [Get];
    }
  }

  /**
   * The guard (ima/app.py:115-123): with the flag unset, or set and the call
   * not forced, the drain makes no broker call and inserts nothing.
   */
  lemma GuardShortCircuit(flag: Flag, force: bool, env: Environment, st: Effects)
    requires flag == Unset || (flag == On && !force)
    ensures Drain(flag, force, env, st) == st
  {
  }

  /** A drain with a handler that never acks never acks, and only appends to the log. */
  lemma DrainWithNeverAcks(handle: Handler, flag: Flag, force: bool, env: Environment, st: Effects)
    requires NoGetNoAck(handle)
    ensures var r := DrainWith(handle, flag, force, env, st);
      st.calls <= r.calls && Ack !in r.calls[|st.calls|..]
  {
    var r := DrainWith(handle, flag, force, env, st);
    if GuardPasses(flag, force) && env.brokerUp && env.declareOk {
      var st' := Effects(st.calls + [Connect, DeclarePassive], st.table);
      LoopNeverAcks(handle, env, 0, env.depth, st');
      LoopAppends(handle, env, 0, env.depth, st');
      assert r.calls[|st.calls|..] == [Connect, DeclarePassive] + r.calls[|st'.calls|..];
    } else if GuardPasses(flag, force) && env.brokerUp {
      assert r.calls[|st.calls|..] == [Connect, DeclarePassive];
    } else if GuardPasses(flag, force) {
      assert r.calls[|st.calls|..] == [Connect];
    } else {
      assert r.calls[|st.calls|..] == [];
    }
  }

  /** A drain never sends `basic_ack`. */
  lemma DrainNeverAcks(flag: Flag, force: bool, env: Environment, st: Effects)
    ensures var r := Drain(flag, force, env, st);
      st.calls <= r.calls && Ack !in r.calls[|st.calls|..]
  {
    HandleProperties();
    DrainWithNeverAcks(Handle, flag, force, env, st);
  }

  /** The get count of a drain, for any handler that issues no get of its own. */
  lemma DrainWithGets(handle: Handler, flag: Flag, force: bool, env: Environment, st: Effects)
    requires NoGetNoAck(handle)
    ensures var r := DrainWith(handle, flag, force, env, st);
      |st.calls| <= |r.calls| &&
      multiset(r.calls[|st.calls|..])[Get] <= env.depth &&
      (GuardPasses(flag, force) && env.brokerUp && env.declareOk && FaultFree(env, 0, env.depth) ==>
        multiset(r.calls[|st.calls|..])[Get] == env.depth) &&
      (!GuardPasses(flag, force) || !env.brokerUp || !env.declareOk ==>
        multiset(r.calls[|st.calls|..])[Get] == 0)
  {
    var r := DrainWith(handle, flag, force, env, st);
    if GuardPasses(flag, force) && env.brokerUp && env.declareOk {
      var st' := Effects(st.calls + [Connect, DeclarePassive], st.table);
      LoopGets(handle, env, 0, env.depth, st');
      LoopAppends(handle, env, 0, env.depth, st');
      assert r.calls[|st.calls|..] == [Connect, DeclarePassive] + r.calls[|st'.calls|..];
    } else if GuardPasses(flag, force) && env.brokerUp {
      assert r.calls[|st.calls|..] == [Connect, DeclarePassive];
    } else if GuardPasses(flag, force) {
      assert r.calls[|st.calls|..] == [Connect];
    } else {
      assert r.calls[|st.calls|..] == [];
    }
  }

  /**
   * The number of `basic_get` calls (ima/app.py:126-164): exactly the depth
   * snapshot when the guard passes, the channel opens, the declare answers
   * and no get raises; never more than that snapshot; and none at all when
   * the guard stops the call or no channel opens.
   */
  lemma DrainGets(flag: Flag, force: bool, env: Environment, st: Effects)
    ensures var r := Drain(flag, force, env, st);
      |st.calls| <= |r.calls| &&
      multiset(r.calls[|st.calls|..])[Get] <= env.depth &&
      (GuardPasses(flag, force) && env.brokerUp && env.declareOk && FaultFree(env, 0, env.depth) ==>
        multiset(r.calls[|st.calls|..])[Get] == env.depth) &&
      (!GuardPasses(flag, force) || !env.brokerUp || !env.declareOk ==>
        multiset(r.calls[|st.calls|..])[Get] == 0)
  {
    HandleProperties();
    DrainWithGets(Handle, flag, force, env, st);
  }

  /** The rows of a drain, for any handler whose rows are ISO-dated and paid for by discards. */
  lemma DrainWithRows(handle: Handler, flag: Flag, force: bool, env: Environment, st: Effects)
    requires RowsIsoDated(handle) && RowsDiscarded(handle)
    ensures var r := DrainWith(handle, flag, force, env, st);
      st.table <= r.table && |st.calls| <= |r.calls| &&
      |r.table| - |st.table| <= multiset(r.calls[|st.calls|..])[Nack(false)] &&
      forall k :: |st.table| <= k < |r.table| ==> IsoDated(r.table[k])
  {
    var r := DrainWith(handle, flag, force, env, st);
    if GuardPasses(flag, force) && env.brokerUp && env.declareOk {
      var st' := Effects(st.calls + [Connect, DeclarePassive], st.table);
      LoopRowsValid(handle, env, 0, env.depth, st');
      LoopRowsBound(handle, env, 0, env.depth, st');
      LoopAppends(handle, env, 0, env.depth, st');
      assert r.calls[|st.calls|..] == [Connect, DeclarePassive] + r.calls[|st'.calls|..];
    }
  }

  /**
   * A drain only appends rows; each holds a valid ISO date, and there are no
   * more of them than messages it discarded with a nack.
   */
  lemma DrainRows(flag: Flag, force: bool, env: Environment, st: Effects)
    ensures var r := Drain(flag, force, env, st);
      st.table <= r.table && |st.calls| <= |r.calls| &&
      |r.table| - |st.table| <= multiset(r.calls[|st.calls|..])[Nack(false)] &&
      forall k :: |st.table| <= k < |r.table| ==> IsoDated(r.table[k])
  {
    HandleProperties();
    DrainWithRows(Handle, flag, force, env, st);
  }

  /**
   * Across any sequence of drains, the log never holds an ack and the table
   * holds only rows with valid ISO dates.
   */
  lemma DrainKeepsInvariant(flag: Flag, force: bool, env: Environment, st: Effects)
    requires Ack !in st.calls
    requires forall k :: 0 <= k < |st.table| ==> IsoDated(st.table[k])
    ensures var r := Drain(flag, force, env, st);
      Ack !in r.calls && forall k :: 0 <= k < |r.table| ==> IsoDated(r.table[k])
  {
    var r := Drain(flag, force, env, st);
    DrainNeverAcks(flag, force, env, st);
    DrainRows(flag, force, env, st);
    assert r.calls == st.calls + r.calls[|st.calls|..];
    forall k | 0 <= k < |r.table| ensures IsoDated(r.table[k]) {
      if k < |st.table| {
        assert r.table[k] == st.table[k];
      }
    }
  }
}
