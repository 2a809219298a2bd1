/** The FTP control channel (lib/ftp/ftp.go): which reply a call reads, and who closes which data
    connection (RFC 959, section 5.4).

    The server answers a command with one final reply, or a transfer command with 125 or 150 and
    then one final reply.  Replies carry the number of the command they answer.  Reading demands
    that a reply is due, so a verified client never waits for one that will not come. */
module FtpControl {

  const STATUS_ALREADY_OPEN := 125
  const STATUS_ABOUT_TO_SEND := 150
  const STATUS_CLOSING_DATA_CONNECTION := 226
  const STATUS_PASSIVE_MODE := 227
  const STATUS_EXTENDED_PASSIVE_MODE := 229
  const STATUS_REQUESTED_FILE_ACTION_OK := 250
  const STATUS_REQUEST_FILE_PENDING := 350

  // A final reply, and the first reply to a transfer command.
  type FinalCode = code: int | code >= 200 witness 200
  type FirstCode = code: int | code == 125 || code == 150 || code >= 200 witness 200

  datatype Reply = Reply(command: nat, code: int)

  // What the server answers in the course of one transfer, and what else goes wrong: the data
  // connection cannot be opened, the transfer breaks off, the deadline cannot be set.
  datatype Answers = Answers(pret: FinalCode, epsv: FinalCode, pasv: FinalCode, rest: FinalCode, first: FirstCode,
                             final: FinalCode, dialFails: bool, breaksOff: bool, deadlineFails: bool)
  {
    // Whether the transfer gets under way.
    predicate Start(tryEpsv: bool, offset: nat) {
      && ((tryEpsv && epsv == 229) || pasv == 227)
      && !dialFails
      && (offset == 0 || rest == 350)
      && (first == 125 || first == 150)
    }

    // Whether its final reply stays unread.
    predicate Unread(shutTimeout: bool) {
      shutTimeout && deadlineFails
    }

    // Whether it succeeds once it is under way.
    predicate Finish(shutTimeout: bool) {
      !breaksOff && !Unread(shutTimeout) && final == 226
    }
  }

  // The commands whose order matters; `Closing` stands for the final reply of a transfer.
  datatype Verb = Pret | Epsv | Pasv | Rest | Transfer | Closing | Rnfr | Rnto | Other

  datatype Exchange = Exchange(verb: Verb, code: int)

  predicate Starts(e: Exchange) {
    e.verb.Transfer? && (e.code == STATUS_ALREADY_OPEN || e.code == STATUS_ABOUT_TO_SEND)
  }

  predicate GivesPort(e: Exchange) {
    e == Exchange(Epsv, STATUS_EXTENDED_PASSIVE_MODE) || e == Exchange(Pasv, STATUS_PASSIVE_MODE)
  }

  // What RFC 959 lets follow what: nothing but its end while a transfer is under way, a transfer
  // only right after a port or an accepted REST, a RNTO only right after an accepted RNFR.
  predicate MayFollow(prev: Exchange, next: Exchange) {
    && (Starts(prev) <==> next.verb.Closing?)
    && (next.verb.Rest? ==> GivesPort(prev))
    && (next.verb.Transfer? ==> GivesPort(prev) || prev == Exchange(Rest, STATUS_REQUEST_FILE_PENDING))
    && (next.verb.Rnto? ==> prev == Exchange(Rnfr, STATUS_REQUEST_FILE_PENDING))
  }

  ghost predicate Proper(log: seq<Exchange>) {
    && (log != [] ==> MayOpen(log[0]))
    && forall i :: 0 < i < |log| ==> MayFollow(log[i - 1], log[i])
  }

  predicate MayOpen(e: Exchange) {
    e.verb.Pret? || e.verb.Epsv? || e.verb.Pasv? || e.verb.Rnfr? || e.verb.Other?
  }

  function PortPlan(epsv: bool, pasv: bool): seq<Verb> {
    (if epsv then [Epsv] else []) + (if pasv then [Pasv] else [])
  }

  // What ends the preparation of a transfer.
  predicate Refused(e: Exchange, dialFails: bool) {
    || (e.verb.Pasv? && e.code != STATUS_PASSIVE_MODE)
    || (e.verb.Rest? && e.code != STATUS_REQUEST_FILE_PENDING)
    || (e.verb.Transfer? && !Starts(e))
    || (dialFails && GivesPort(e))
  }

  // The commands of one transfer, in order.
  function Plan(pret: bool, epsv: bool, pasv: bool, offset: nat): seq<Verb> {
    (if pret then [Pret] else []) + PortPlan(epsv, pasv)
    + (if offset != 0 then [Rest] else []) + [Transfer]
  }

  function Verbs(log: seq<Exchange>): seq<Verb> {
    seq(|log|, i requires 0 <= i < |log| => log[i].verb)
  }

  // Close calls a data connection has seen.
  type DataConns = seq<nat>

  ghost predicate AllClosedOnce(conns: DataConns) {
    forall i :: 0 <= i < |conns| ==> conns[i] == 1
  }

  // Every connection but the last has been closed once, the last one not yet.
  ghost predicate LastOpen(conns: DataConns) {
    conns != [] && AllClosedOnce(conns[..|conns| - 1]) && conns[|conns| - 1] == 0
  }

  class ServerConn {
    var sent: nat
    var replies: seq<Reply>
    var conns: DataConns
    var skipEPSV: bool
    ghost var log: seq<Exchange>
    const disableEPSV: bool
    const usePRET: bool
    const mlstSupported: bool
    const shutTimeout: bool

    ghost predicate Quiet()
      reads this
    {
      replies == [] && Proper(log) && (log != [] ==> !Starts(log[|log| - 1]))
    }

    // Between calls: nothing unread, nothing open.
    ghost predicate Idle()
      reads this
    {
      Quiet() && AllClosedOnce(conns)
    }

    // A transfer is under way: its final reply is still to be read, its connection still open.
    ghost predicate Transferring()
      reads this
    {
      |replies| == 1 && replies[0].command == sent && LastOpen(conns)
      && Proper(log) && log != [] && Starts(log[|log| - 1])
    }

    // A transfer has ended, but its final reply is still unread: the next call would take it for its own.
    ghost predicate OutOfStep()
      reads this
    {
      |replies| == 1 && replies[0].command == sent && AllClosedOnce(conns)
      && Proper(log) && log != [] && Starts(log[|log| - 1])
    }

    predicate TriesEpsv()
      reads this
    {
      !disableEPSV && !skipEPSV
    }

    constructor (disableEPSV: bool, usePRET: bool, mlstSupported: bool, shutTimeout: bool)
      ensures Idle() && sent == 0 && log == []
      ensures this.disableEPSV == disableEPSV && this.usePRET == usePRET
      ensures this.mlstSupported == mlstSupported && this.shutTimeout == shutTimeout
    {
      this.disableEPSV, this.usePRET := disableEPSV, usePRET;
      this.mlstSupported, this.shutTimeout := mlstSupported, shutTimeout;
      sent, replies, conns, skipEPSV, log := 0, [], [], false, [];
    }

    /* ---- The wire ---- */

    // Sends a command that has one reply.
    method Send(answer: FinalCode)
      modifies this`sent, this`replies
      ensures sent == old(sent) + 1 && replies == old(replies) + [Reply(sent, answer)]
    {
      sent := sent + 1;
      replies := replies + [Reply(sent, answer)];
    }

    // Sends a transfer command.
    method SendTransfer(first: FirstCode, final: FinalCode)
      modifies this`sent, this`replies
      ensures sent == old(sent) + 1
      ensures replies == old(replies) + [Reply(sent, first)]
                         + if Starts(Exchange(Transfer, first)) then [Reply(sent, final)] else []
    {
      sent := sent + 1;
      replies := replies + [Reply(sent, first)];
      if first == STATUS_ALREADY_OPEN || first == STATUS_ABOUT_TO_SEND {
        replies := replies + [Reply(sent, final)];
      }
    }

    // A positive expectation is the exact code; -1 accepts any.
    method ReadResponse(expected: int) returns (ok: bool, reply: Reply)
      requires replies != []
      modifies this`replies
      ensures reply == old(replies)[0] && replies == old(replies)[1..]
      ensures ok == (expected <= 0 || reply.code == expected)
    {
      reply := replies[0];
      replies := replies[1..];
      ok := expected <= 0 || reply.code == expected;
    }

    method CloseData()
      requires LastOpen(conns)
      modifies this`conns
      ensures AllClosedOnce(conns) && |conns| == |old(conns)|
    {
      conns := conns[..|conns| - 1] + [conns[|conns| - 1] + 1];
    }

    /* ---- Calls ---- */

    // Every call that is one command: the reply read is the command's own.
    method Cmd(expected: int, answer: FinalCode, ghost verb: Verb) returns (ok: bool, reply: Reply)
      requires Quiet()
      requires if log == [] then MayOpen(Exchange(verb, 0)) else MayFollow(log[|log| - 1], Exchange(verb, 0))
      requires !verb.Transfer?
      modifies this`sent, this`replies, this`log
      ensures Quiet() && sent == old(sent) + 1 && reply.command == sent
      ensures reply.code == answer && log == old(log) + [Exchange(verb, answer)]
      ensures ok == (expected <= 0 || answer == expected)
    {
      Send(answer);
      ok, reply := ReadResponse(expected);
      log := log + [Exchange(verb, reply.code)];
    }

    // Two commands; the second only after the first was accepted.
    method Rename(fromAnswer: FinalCode, toAnswer: FinalCode) returns (ok: bool)
      requires Idle()
      modifies this`sent, this`replies, this`log
      ensures Idle()
      ensures ok <==> fromAnswer == 350 && toAnswer == 250
      ensures log == old(log) + [Exchange(Rnfr, fromAnswer)]
                     + if fromAnswer == 350 then [Exchange(Rnto, toAnswer)] else []
    {
      var reply;
      ok, reply := Cmd(STATUS_REQUEST_FILE_PENDING, fromAnswer, Rnfr);
      if !ok {
        return;
      }
      ok, reply := Cmd(STATUS_REQUESTED_FILE_ACTION_OK, toAnswer, Rnto);
    }

    method GetEntry(answer: FinalCode) returns (ok: bool)
      requires Idle()
      modifies this`sent, this`replies, this`log
      ensures Idle()
      ensures ok <==> mlstSupported && answer == 250
      ensures log == old(log) + if mlstSupported then [Exchange(Other, answer)] else []
    {
      if !mlstSupported {
        return false;
      }
      var reply;
      ok, reply := Cmd(STATUS_REQUESTED_FILE_ACTION_OK, answer, Other);
    }

    // EPSV until it has failed once, then PASV.
    method GetDataConnPort(a: Answers) returns (ok: bool)
      requires Quiet()
      modifies this`sent, this`replies, this`skipEPSV, this`log
      ensures Quiet() && |log| > |old(log)|
      ensures ok == GivesPort(log[|log| - 1])
      ensures ok <==> (old(TriesEpsv()) && a.epsv == 229) || a.pasv == 227
      ensures !ok ==> Refused(log[|log| - 1], false)
      ensures old(skipEPSV) || disableEPSV ==> skipEPSV == old(skipEPSV)
      ensures var epsv := old(TriesEpsv());
              && old(log) <= log
              && Verbs(log[|old(log)|..]) == PortPlan(epsv, !epsv || skipEPSV)
              && (epsv ==> (skipEPSV <==> a.epsv != 229))
    {
      var reply;
      ghost var before := log;
      if !disableEPSV && !skipEPSV {
        ok, reply := Cmd(STATUS_EXTENDED_PASSIVE_MODE, a.epsv, Epsv);
        assert log[|before|..] == [Exchange(Epsv, reply.code)];
        if ok {
          return;
        }
        skipEPSV := true;
      }
      ghost var tried := log;
      ok, reply := Cmd(STATUS_PASSIVE_MODE, a.pasv, Pasv);
      assert log[|before|..] == tried[|before|..] + [Exchange(Pasv, reply.code)];
    }

    method OpenDataConn(a: Answers) returns (ok: bool)
      requires Quiet()
      modifies this`sent, this`replies, this`skipEPSV, this`conns, this`log
      ensures Quiet() && |log| > |old(log)|
      ensures conns == if ok then old(conns) + [0] else old(conns)
      ensures ok <==> GivesPort(log[|log| - 1]) && !a.dialFails
      ensures ok <==> !a.dialFails && ((old(TriesEpsv()) && a.epsv == 229) || a.pasv == 227)
      ensures !ok ==> Refused(log[|log| - 1], a.dialFails)
      ensures old(skipEPSV) || disableEPSV ==> skipEPSV == old(skipEPSV)
      ensures var epsv := old(TriesEpsv());
              && old(log) <= log
              && Verbs(log[|old(log)|..]) == PortPlan(epsv, !epsv || skipEPSV)
              && (epsv ==> (skipEPSV <==> a.epsv != 229))
    {
      ok := GetDataConnPort(a);
      if !ok {
        return;
      }
      if a.dialFails {
        return false;
      }
      conns := conns + [0];
    }

    // Everything before the transfer command.
    method Prepare(offset: nat, a: Answers) returns (ok: bool)
      requires Idle()
      modifies this`sent, this`replies, this`skipEPSV, this`conns, this`log
      ensures old(log) <= log && |log| > |old(log)|
      ensures if ok then Quiet() && LastOpen(conns) && MayFollow(log[|log| - 1], Exchange(Transfer, 0))
              else Idle() && Refused(log[|log| - 1], a.dialFails)
      ensures a.Start(old(TriesEpsv()), offset) <==> ok && Starts(Exchange(Transfer, a.first))
      ensures var epsv := old(TriesEpsv());
              var plan := Plan(usePRET, epsv, !epsv || skipEPSV, offset);
              SentOf(plan, old(log), log) && (ok ==> |log| - |old(log)| == |plan| - 1)
    {
      hide Plan, PortPlan, Verbs, Proper, AllClosedOnce, LastOpen;
      var reply;
      ghost var before := log;
      NothingSent(before);
      if usePRET {
        ok, reply := Cmd(-1, a.pret, Pret);
        OneSent(before, Exchange(Pret, reply.code));
      }
      ghost var warm := log;
      ok := OpenDataConn(a);
      ghost var epsv := old(TriesEpsv());
      PlanSoFar(before, warm, log, usePRET, epsv, !epsv || skipEPSV, offset);
      if !ok {
        return;
      }
      OneOpened(old(conns));
      if offset != 0 {
        VerbAdded(before, log, Rest, Plan(usePRET, epsv, !epsv || skipEPSV, offset));
        ok, reply := Cmd(STATUS_REQUEST_FILE_PENDING, a.rest, Rest);
        if !ok {
          CloseData();
        }
      }
    }

    // Starts a transfer, or leaves the session idle.  The commands sent are those of the plan, up to
    // the one that was refused.
    method CmdDataConnFrom(offset: nat, a: Answers) returns (ok: bool)
      requires Idle()
      modifies this`sent, this`replies, this`skipEPSV, this`conns, this`log
      ensures old(log) <= log && |log| > |old(log)|
      ensures ok == a.Start(old(TriesEpsv()), offset)
      ensures if ok then Transferring() && replies[0].code == a.final else Idle() && Refused(log[|log| - 1], a.dialFails)
      ensures var epsv := old(TriesEpsv());
              var plan := Plan(usePRET, epsv, !epsv || skipEPSV, offset);
              SentOf(plan, old(log), log) && (ok ==> |log| - |old(log)| == |plan|)
    {
      ok := Prepare(offset, a);
      if !ok {
        return;
      }
      hide Plan, Verbs, Proper, AllClosedOnce, LastOpen;
      ghost var epsv := old(TriesEpsv());
      ghost var plan := Plan(usePRET, epsv, !epsv || skipEPSV, offset);
      LastPlanned(usePRET, epsv, !epsv || skipEPSV, offset);
      VerbAdded(old(log), log, Transfer, plan);
      ok := StartTransfer(a.first, a.final);
      if !ok {
        CloseData();
      }
    }

    // The transfer command itself.
    method StartTransfer(first: FirstCode, final: FinalCode) returns (ok: bool)
      requires Quiet() && log != []
      requires GivesPort(log[|log| - 1]) || log[|log| - 1] == Exchange(Rest, STATUS_REQUEST_FILE_PENDING)
      modifies this`sent, this`replies, this`log
      ensures log == old(log) + [Exchange(Transfer, first)] && ok == Starts(Exchange(Transfer, first))
      ensures if ok then replies == [Reply(sent, final)] && Proper(log) else Quiet()
    {
      SendTransfer(first, final);
      var reply;
      ok, reply := ReadResponse(-1);
      log := log + [Exchange(Transfer, reply.code)];
      ok := reply.code == STATUS_ALREADY_OPEN || reply.code == STATUS_ABOUT_TO_SEND;
    }

    // Reads the transfer's final reply, unless the deadline cannot be set.
    method CheckDataShut(deadlineFails: bool) returns (ok: bool)
      requires |replies| == 1 && Proper(log) && log != [] && Starts(log[|log| - 1])
      modifies this`replies, this`log
      ensures if shutTimeout && deadlineFails then !ok && replies == old(replies) && log == old(log)
              else Quiet() && log == old(log) + [Exchange(Closing, old(replies)[0].code)]
                   && ok == (old(replies)[0].code == STATUS_CLOSING_DATA_CONNECTION)
    {
      if shutTimeout && deadlineFails {
        return false;
      }
      var reply;
      ok, reply := ReadResponse(STATUS_CLOSING_DATA_CONNECTION);
      log := log + [Exchange(Closing, reply.code)];
    }

    // LIST and NLST: the transfer is read to its end and closed inside the call.
    method List(a: Answers) returns (ok: bool)
      requires Idle()
      modifies this`sent, this`replies, this`skipEPSV, this`conns, this`log
      ensures var started := a.Start(old(TriesEpsv()), 0);
              && (ok <==> started && a.Finish(shutTimeout))
              && (if started && a.Unread(shutTimeout) then OutOfStep() && replies[0].code == a.final else Idle())
              && (started && !a.Unread(shutTimeout) ==> |log| > |old(log)| && log[|log| - 1] == Exchange(Closing, a.final))
    {
      ok := CmdDataConnFrom(0, a);
      if !ok {
        return;
      }
      var r := new Response(this);
      var closed := r.Close(a.deadlineFails);
      ok := !a.breaksOff && closed;
    }

    // RETR hands the open transfer to the caller.
    method RetrFrom(offset: nat, a: Answers) returns (r: Response?)
      requires Idle()
      modifies this`sent, this`replies, this`skipEPSV, this`conns, this`log
      ensures r != null <==> a.Start(old(TriesEpsv()), offset)
      ensures if r != null then fresh(r) && r.c == this && !r.closed && Transferring() && replies[0].code == a.final
              else Idle() && |log| > |old(log)| && Refused(log[|log| - 1], a.dialFails)
    {
      r := null;
      var ok := CmdDataConnFrom(offset, a);
      if ok {
        r := new Response(this);
      }
    }

    // STOR and APPE: whether or not the copy succeeds, the connection is closed and the reply read.
    method StorFrom(offset: nat, a: Answers) returns (ok: bool)
      requires Idle()
      modifies this`sent, this`replies, this`skipEPSV, this`conns, this`log
      ensures var started := a.Start(old(TriesEpsv()), offset);
              && (ok <==> started && a.Finish(shutTimeout))
              && (if started && a.Unread(shutTimeout) then OutOfStep() && replies[0].code == a.final else Idle())
              && (started && !a.Unread(shutTimeout) ==> |log| > |old(log)| && log[|log| - 1] == Exchange(Closing, a.final))
    {
      ok := CmdDataConnFrom(offset, a);
      if !ok {
        return;
      }
      CloseData();
      var shut := CheckDataShut(a.deadlineFails);
      ok := !a.breaksOff && shut;
    }
  }

  class Response {
    const c: ServerConn
    var closed: bool

    constructor (c: ServerConn)
      ensures this.c == c && !closed
    {
      this.c, this.closed := c, false;
    }

    // The first call ends the transfer, later ones do nothing.  The session is idle again exactly
    // when the deadline, if one is configured, could be set.
    method Close(deadlineFails: bool) returns (ok: bool)
      requires !closed ==> c.Transferring()
      modifies this, c`replies, c`conns, c`log
      ensures closed
      ensures old(closed) ==> ok && c.replies == old(c.replies) && c.conns == old(c.conns) && c.log == old(c.log)
      ensures !old(closed) ==>
                if c.shutTimeout && deadlineFails then c.OutOfStep() && !ok && c.replies == old(c.replies) else c.Idle()
      ensures !old(closed) && c.Idle() ==>
                && c.log == old(c.log) + [Exchange(Closing, old(c.replies)[0].code)]
                && ok == (old(c.replies)[0].code == STATUS_CLOSING_DATA_CONNECTION)
    {
      if closed {
        return true;
      }
      c.CloseData();
      ok := c.CheckDataShut(deadlineFails);
      closed := true;
    }
  }

  lemma OneOpened(conns: DataConns)
    requires AllClosedOnce(conns)
    ensures LastOpen(conns + [0])
  {
    assert (conns + [0])[..|conns|] == conns;
  }

  lemma NothingSent(before: seq<Exchange>)
    ensures before <= before && Verbs(before[|before|..]) == []
  {
  }

  lemma OneSent(before: seq<Exchange>, e: Exchange)
    ensures before <= before + [e] && Verbs((before + [e])[|before|..]) == [e.verb]
  {
    assert (before + [e])[|before|..] == [e];
  }

  // The exchanges since `before` are the first commands of the plan.
  ghost predicate SentOf(plan: seq<Verb>, before: seq<Exchange>, log: seq<Exchange>) {
    before <= log && |log| - |before| <= |plan| && Verbs(log[|before|..]) == plan[..|log| - |before|]
  }

  lemma VerbAdded(before: seq<Exchange>, log: seq<Exchange>, verb: Verb, plan: seq<Verb>)
    requires SentOf(plan, before, log) && |log| - |before| < |plan| && plan[|log| - |before|] == verb
    ensures forall code :: SentOf(plan, before, log + [Exchange(verb, code)])
  {
    forall code
      ensures SentOf(plan, before, log + [Exchange(verb, code)])
    {
      assert (log + [Exchange(verb, code)])[|before|..] == log[|before|..] + [Exchange(verb, code)];
    }
  }

  lemma LastPlanned(pret: bool, epsv: bool, pasv: bool, offset: nat)
    ensures var plan := Plan(pret, epsv, pasv, offset);
            plan != [] && plan[|plan| - 1] == Transfer
  {
  }

  lemma PlanSoFar(before: seq<Exchange>, warm: seq<Exchange>, log: seq<Exchange>, pret: bool, epsv: bool, pasv: bool,
                  offset: nat)
    requires before <= warm <= log
    requires Verbs(warm[|before|..]) == (if pret then [Pret] else [])
    requires Verbs(log[|warm|..]) == PortPlan(epsv, pasv)
    ensures var plan := Plan(pret, epsv, pasv, offset);
            && SentOf(plan, before, log)
            && |log| - |before| == |plan| - (if offset != 0 then 2 else 1)
            && (offset != 0 ==> plan[|plan| - 2] == Rest)
  {
    VerbsJoin(before, warm, log);
    hide Verbs, PortPlan;
    var head := if pret then [Pret] else [];
    var sent := head + PortPlan(epsv, pasv);
    PlanParts(sent, if offset != 0 then [Rest, Transfer] else [Transfer]);
    assert Plan(pret, epsv, pasv, offset) == sent + if offset != 0 then [Rest, Transfer] else [Transfer];
    assert |Verbs(log[|before|..])| == |log| - |before| by { VerbsLength(log[|before|..]); }
  }

  lemma VerbsLength(log: seq<Exchange>)
    ensures |Verbs(log)| == |log|
  {
  }

  lemma PlanParts(sent: seq<Verb>, rest: seq<Verb>)
    ensures (sent + rest)[..|sent|] == sent && (sent + rest)[|sent|..] == rest
  {
  }

  lemma VerbsJoin(before: seq<Exchange>, warm: seq<Exchange>, log: seq<Exchange>)
    requires before <= warm <= log
    ensures before <= log && Verbs(log[|before|..]) == Verbs(warm[|before|..]) + Verbs(log[|warm|..])
  {
    var a, b, c := warm[|before|..], log[|warm|..], log[|before|..];
    assert c == a + b;
    assert Verbs(a + b) == Verbs(a) + Verbs(b);
  }

  /* ---- Sessions ---- */

  datatype Call =
    | Simple(expected: int, answer: FinalCode)
    | RenameCall(fromAnswer: FinalCode, toAnswer: FinalCode)
    | EntryCall(answer: FinalCode)
    | ListCall(answers: Answers)
    | RetrCall(offset: nat, answers: Answers, closes: nat)
    | StorCall(offset: nat, answers: Answers)
  {
    // Calls whose transfer may end with its final reply unread.
    predicate Careless(shutTimeout: bool) {
      match this
      case ListCall(answers) => answers.Unread(shutTimeout)
      case RetrCall(_, answers, _) => answers.Unread(shutTimeout)
      case StorCall(_, answers) => answers.Unread(shutTimeout)
      case _ => false
    }
  }

  method Make(c: ServerConn, call: Call)
    requires c.Idle()
    modifies c
    ensures c.Idle() || c.OutOfStep()
    ensures !c.Idle() ==> call.Careless(c.shutTimeout)
  {
    match call {
      case Simple(expected, answer) =>
        var ok, reply := c.Cmd(expected, answer, Other);
      case RenameCall(fromAnswer, toAnswer) =>
        var ok := c.Rename(fromAnswer, toAnswer);
      case EntryCall(answer) =>
        var ok := c.GetEntry(answer);
      case ListCall(answers) =>
        var ok := c.List(answers);
      case StorCall(offset, answers) =>
        var ok := c.StorFrom(offset, answers);
      case RetrCall(offset, answers, closes) =>
        var r := c.RetrFrom(offset, answers);
        if r != null {
          var ok := r.Close(answers.deadlineFails);
          for i := 0 to closes
            invariant r.closed && r.c == c && (if answers.Unread(c.shutTimeout) then c.OutOfStep() else c.Idle())
          {
            ok := r.Close(answers.deadlineFails);
          }
        }
    }
  }

  // Any calls in any order, each transfer closed at least once before the next call: whatever the
  // server accepts or refuses, replies and calls stay in step and no connection stays open.  The
  // session ends early only after a deadline that could not be set, one reply behind.
  method Session(c: ServerConn, calls: seq<Call>) returns (made: nat)
    requires c.Idle()
    modifies c
    ensures made <= |calls|
    ensures c.Idle() ==> made == |calls|
    ensures !c.Idle() ==> c.OutOfStep() && 0 < made && calls[made - 1].Careless(c.shutTimeout)
    ensures (forall i :: 0 <= i < |calls| ==> !calls[i].Careless(c.shutTimeout)) ==> c.Idle()
  {
    made := 0;
    while made < |calls| && |c.replies| == 0
      invariant made <= |calls|
      invariant c.Idle() || (c.OutOfStep() && 0 < made && calls[made - 1].Careless(c.shutTimeout))
      decreases |calls| - made
    {
      made := made + 1;
      Make(c, calls[made - 1]);
    }
  }

  // The failing input: a listing goes well but for its deadline.  The next command, accepted by the
  // server, reads the listing's 226 for its own reply and fails.
  method UnreadReply() returns (c: ServerConn, listed: bool, ok: bool, reply: Reply)
    ensures !listed && !ok
    ensures reply.command + 1 == c.sent && reply.code == 226
    ensures c.replies == [Reply(c.sent, 250)]
  {
    c := new ServerConn(false, false, false, true);
    var answers := Answers(200, STATUS_EXTENDED_PASSIVE_MODE, STATUS_PASSIVE_MODE, STATUS_REQUEST_FILE_PENDING, STATUS_ABOUT_TO_SEND,
                           STATUS_CLOSING_DATA_CONNECTION, false, false, true);
    listed := c.List(answers);
    assert c.OutOfStep();
    c.Send(STATUS_REQUESTED_FILE_ACTION_OK);
    ok, reply := c.ReadResponse(STATUS_REQUESTED_FILE_ACTION_OK);
  }
}
