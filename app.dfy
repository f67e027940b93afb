/**
 * The Flask application state of ima/app.py: the global flag
 * `processando_fila`, the list `mensagens_enviadas`, and, standing for the
 * broker and the database, the log of broker calls and the rows of
 * `tabela_mensagens`. Each route handler that changes that state is a method
 * of `Service`, proved against the functions of module `Consumer`.
 */
module App {

  import opened Wrappers
  import opened Message
  import opened Dates
  import opened Consumer

  /** The step of `enviar_mensagem` (ima/app.py:60-85) that raises, if any. */
  datatype SendFault =
    | NoFault
    | ConnectFault   // conectar_rabbitmq returns None, so queue_declare raises on it
    | DeclareFault   // queue_declare(durable=True) raises
    | PublishFault   // basic_publish raises
    | CloseFault     // channel.close raises, after the message went out

  /**
   * The broker calls `enviar_mensagem` issues: none when the request has no
   * `mensagem` (the lookup raises first), then connect, declare, publish and
   * close, each only when the step before it did not raise.
   */
  function SendCalls(message: Option<string>, fault: SendFault): seq<BrokerCall>
  {
    match message
    case None => []
    case Some(m) =>
      match fault
      case ConnectFault => [Connect]
      case DeclareFault => [Connect, DeclareDurable]
      case PublishFault => [Connect, DeclareDurable, Publish(m)]
      case CloseFault => [Connect, DeclareDurable, Publish(m), Close]
      case NoFault => [Connect, DeclareDurable, Publish(m), Close]
  }

  /** What `enviar_mensagem` appends to `mensagens_enviadas`: the message, once every step returned. */
  function Recorded(message: Option<string>, fault: SendFault): seq<string>
  {
    if message.Some? && fault == NoFault then [message.value] else []
  }

  /** The HTTP status of `enviar_mensagem`: 200 after every step returned, 500 once one raised. */
  function SendStatus(message: Option<string>, fault: SendFault): int
  {
    if message.Some? && fault == NoFault then 200 else 500
  }

  /**
   * A message is recorded as sent only when it was published and the channel
   * closed, and the route reports success exactly then.
   */
  lemma {:induction false} RecordedOnlyAfterPublish(message: Option<string>, fault: SendFault)
    ensures Recorded(message, fault) != [] ==>
      message.Some? && Recorded(message, fault) == [message.value] &&
      SendCalls(message, fault) == [Connect, DeclareDurable, Publish(message.value), Close]
    ensures SendStatus(message, fault) == 200 <==> Recorded(message, fault) != []
  {
  }

  /**
   * `basic_publish` is reached exactly when the request carries a message
   * and the connection and the declare returned; it returned exactly when
   * the channel close follows it. When only the close raises, the message is
   * on the queue but absent from the sent list, and the route answers 500.
   */
  lemma PublishIff(m: string, fault: SendFault)
    ensures Publish(m) in SendCalls(Some(m), fault) <==> fault != ConnectFault && fault != DeclareFault
    ensures Close in SendCalls(Some(m), fault) <==> fault == NoFault || fault == CloseFault
    ensures fault == CloseFault ==>
      Publish(m) in SendCalls(Some(m), fault) && Recorded(Some(m), fault) == [] &&
      SendStatus(Some(m), fault) == 500
  {
    var c := SendCalls(Some(m), fault);
    match fault {
      case ConnectFault => assert c == [Connect];
      case DeclareFault => assert c == [Connect, DeclareDurable];
      case PublishFault => assert c[2] == Publish(m) && c == [Connect, DeclareDurable, Publish(m)];
      case CloseFault => assert c[2] == Publish(m) && c[3] == Close;
      case NoFault => assert c[2] == Publish(m) && c[3] == Close;
    }
  }

  /** A request without `mensagem` issues no broker call, records nothing and answers 500. */
  lemma MissingMessageFails(fault: SendFault)
    ensures SendCalls(None, fault) == [] && Recorded(None, fault) == [] && SendStatus(None, fault) == 500
  {
  }

  /**
   * What `obter_contagem_fila` (ima/app.py:88-101) returns: the depth the
   * passive declare reports, or the sentinel -1 when no channel opens or the
   * declare raises.
   */
  function QueueCount(env: Environment): (c: int)
    ensures c >= -1
  {
    if env.brokerUp && env.declareOk then env.depth else -1
  }

  /** The HTTP status of `verificar_contagem_fila` (ima/app.py:104-111) for a count. */
  function CountStatus(c: int): int
  {
    if c >= 0 then 200 else 500
  }

  /**
   * The count route answers 200 with the queue depth exactly when a channel
   * opens and the declare answers, and 500 with the sentinel otherwise.
   */
  lemma CountRoute(env: Environment)
    ensures CountStatus(QueueCount(env)) == 200 <==> env.brokerUp && env.declareOk
    ensures CountStatus(QueueCount(env)) == 200 ==> QueueCount(env) == env.depth
    ensures CountStatus(QueueCount(env)) == 500 ==> QueueCount(env) == -1
    ensures CountStatus(QueueCount(env)) in {200, 500}
  {
  }

  class Service {
    var processando: Flag
    var sent: seq<string>
    var calls: seq<BrokerCall>
    var table: seq<Row>

    /**
     * What holds between requests: no `basic_ack` was ever sent, every row
     * holds a valid ISO date, and no drain is marked in progress.
     */
    ghost predicate Valid()
      reads this
    {
      Ack !in calls && processando != On &&
      forall k :: 0 <= k < |table| ==> IsoDated(table[k])
    }

    /** The module as loaded: `processando_fila` never assigned, nothing sent, nothing stored. */
    constructor ()
      ensures processando == Unset && sent == [] && calls == [] && table == []
      ensures Valid()
    {
      processando := Unset;
      sent := [];
      calls := [];
      table := [];
    }

    /**
     * `salvar_mensagem_no_banco` (ima/app.py:193-211): converts the date from
     * DD/MM/YYYY to YYYY-MM-DD and inserts one row when the conversion
     * succeeds and the database is reachable. Every failure is logged and
     * swallowed, and the function always returns None.
     */
    method SaveMessage(data: string, hora: string, uuid: string, nome: string, storeUp: bool)
      returns (saved: bool)
      modifies this`table
      ensures table == old(table) + SaveRows(Fields(data, hora, uuid, nome), storeUp)
      ensures |table| == |old(table)| + 1 <==> storeUp && ParseDayMonthYear(data).Some?
      ensures !saved
    {
      ReformatMeaning(data);
      var formatted := Reformat(data);
      if formatted.Some? {
        if storeUp {
          table := table + [Row(uuid, formatted.value, hora, nome)];
        }
      }
      saved := false;
    }

    /**
     * `processar_fila(iniciar_processamento)` (ima/app.py:114-171). Whatever
     * path it takes, the flag ends cleared, because of the `finally`.
     */
    method ProcessQueue(force: bool, env: Environment)
      modifies this
      ensures processando == Off && sent == old(sent)
      ensures Effects(calls, table) == Drain(old(processando), force, env, Effects(old(calls), old(table)))
      ensures old(Valid()) ==> Valid()
    {
      ghost var start := Effects(calls, table);
      ghost var startFlag := processando;
      ghost var target := Drain(startFlag, force, env, start);
      if Valid() {
        DrainKeepsInvariant(startFlag, force, env, start);
      }

      if processando == Unset {
        // the read of the never-assigned global raises NameError
      } else if processando == On && !force {
        // a drain is marked in progress
      } else {
        processando := On;
        calls := calls + [Connect];
        if env.brokerUp {
          calls := calls + [DeclarePassive];
          if env.declareOk {
            assert calls == start.calls + [Connect, DeclarePassive];
            if env.depth != 0 {
              ConsumeMessages(env, Handle);
            }
          }
        }
      }
      processando := Off;
    }

    /**
     * The loop of ima/app.py:136-164: one `basic_get` per message the passive
     * declare counted, until a get raises.
     */
    method ConsumeMessages(env: Environment, ghost h: Handler)
      requires ActsAsHandle(h)
      modifies this`calls, this`table
      ensures Effects(calls, table) == Loop(h, env, 0, env.depth, Effects(old(calls), old(table)))
    {
      ghost var target := Loop(h, env, 0, env.depth, Effects(calls, table));
      var count: nat := env.depth;
      var i: nat := 0;
      while count > 0
        invariant i + count == env.depth
        invariant Loop(h, env, i, count, Effects(calls, table)) == target
        decreases count
      {
        ghost var before := Effects(calls, table);
        ghost var e;
        var raised;
        raised, e := ConsumeOne(env, i, h);
        if raised {
          // the exception leaves the loop for the outer handler
          LoopFault(h, env, i, count, before);
          break;
        }
        LoopStep(h, env, i, count, before, e, Effects(calls, table));
        count := count - 1;
        i := i + 1;
      }
    }

    /**
     * One iteration of the loop (ima/app.py:138-162): a `basic_get`, then the
     * handling of what it returned; `raised` when the get raised.
     */
    method ConsumeOne(env: Environment, i: nat, ghost h: Handler) returns (raised: bool, ghost e: Effects)
      requires ActsAsHandle(h)
      modifies this`calls, this`table
      ensures raised <==> DeliveryAt(env, i).Fault?
      ensures raised ==> calls == old(calls) + [Get] && table == old(table)
      ensures !raised ==> e == h(DeliveryAt(env, i), StoreUpAt(env, i))
      ensures !raised ==> calls == old(calls) + [Get] + e.calls && table == old(table) + e.table
    {
      calls := calls + [Get];
      var d := DeliveryAt(env, i);
      if d.Fault? {
        return true, Effects([], []);
      }
      e := Handle(d, StoreUpAt(env, i));
      assert Handling(d, StoreUpAt(env, i));
      HandleDelivery(d, StoreUpAt(env, i));
      raised := false;
    }

    /**
     * The `try` block of ima/app.py:142-162 for one message `basic_get`
     * returned (or for none, when the queue had emptied).
     */
    method HandleDelivery(d: Delivery, storeUp: bool)
      requires !d.Fault?
      modifies this`calls, this`table
      ensures calls == old(calls) + Handle(d, storeUp).calls
      ensures table == old(table) + Handle(d, storeUp).table
    {
      match d {
        case Delivered(body) =>
          var fields := Extract(body);
          if fields.None? {
            calls := calls + [Nack(true)];
          } else {
            var f := fields.value;
            var saved := SaveMessage(f.data, f.hora, f.uuid, f.nome, storeUp);
            calls := calls + [if saved then Ack else Nack(false)];
          }
        case Undecodable =>
          calls := calls + [Nack(true)];
        case Empty =>
      }
    }

    /**
     * `enviar_mensagem` (ima/app.py:60-85): publishes the message as a
     * persistent message and then appends it to `mensagens_enviadas`; any
     * raising step answers 500 and skips the append.
     */
    method SendMessage(message: Option<string>, fault: SendFault) returns (status: int)
      modifies this`calls, this`sent
      ensures calls == old(calls) + SendCalls(message, fault)
      ensures sent == old(sent) + Recorded(message, fault)
      ensures status == SendStatus(message, fault)
      ensures old(Valid()) ==> Valid()
    {
      if message.None? {
        return 500;
      }
      var m := message.value;
      calls := calls + [Connect];
      if fault == ConnectFault {
        return 500;
      }
      calls := calls + [DeclareDurable];
      if fault == DeclareFault {
        return 500;
      }
      calls := calls + [Publish(m)];
      if fault == PublishFault {
        return 500;
      }
      calls := calls + [Close];
      if fault == CloseFault {
        return 500;
      }
      sent := sent + [m];
      status := 200;
    }
  }
}
