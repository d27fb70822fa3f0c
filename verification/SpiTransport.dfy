// Model of drivers/common/fpga_spi_v3.c: register access over 8-word CRC-protected
// SPI frames, polled with retries.
//
// The peer is arbitrary: each exchange consumes one reply from a script nothing is
// assumed about.  The transport is proved to accept only well-formed replies that
// answer the request, and to account for every exchange.
module SpiTransport {
  import opened Crc16
  import opened Wswap
  import opened SpiCounters

  const SPI_FRAME_LEN := 8
  const LENGTH_FIELD: bv16 := 5  // SPI_FRAME_LEN - 3
  const MAX_RETRY := 2
  const ADDR_OP_STAT: bv32 := 0x57A7_14F0
  const ADDR_OP_NULL: bv32 := 0xDEAD_CA5E

  const OP_NULL: bv16 := 0
  const OP_WR: bv16 := 1
  const OP_RD: bv16 := 2
  const OP_ST: bv16 := 3

  // ---------- frames ----------

  type Frame = f: seq<bv16> | |f| == SPI_FRAME_LEN witness [0, 0, 0, 0, 0, 0, 0, 0]

  // Bits 15..14 of the first word; bits 7..0 are the length.
  function OpWord(opcode: bv16, length: bv16): bv16 { (opcode << 14) | length }
  function Opcode(frame: Frame): bv16 { frame[0] >> 14 }

  // Address and data fields as the C struct reads them from memory.
  function AddrField(frame: Frame): bv32 { Join32(frame[1], frame[2]) }
  function DataField(frame: Frame): bv64 { Join64(frame[3], frame[4], frame[5], frame[6]) }

  function ReplyAddr(frame: Frame): bv32 { Wswap32(AddrField(frame)) }
  function ReplyData(frame: Frame): bv64 { Wswap64(DataField(frame)) }

  // The frame for a request: most significant words first, then the CRC.
  function Request(opcode: bv16, addr: bv32, data: bv64): (frame: Frame) {
    var body := [OpWord(opcode, LENGTH_FIELD), Word32(addr, 1), Word32(addr, 0),
                 Word64(data, 3), Word64(data, 2), Word64(data, 1), Word64(data, 0)];
    body + [CrcOfWords(body)]
  }

  lemma RequestReadsBack(opcode: bv16, addr: bv32, data: bv64)
    requires opcode <= 3
    ensures var f := Request(opcode, addr, data);
            && CrcValid(f) && Opcode(f) == opcode && ReplyAddr(f) == addr && ReplyData(f) == data
  {
    hide CrcOfWords, Wswap32, Wswap64, Join32, Join64, Word32, Word64;
    var f := Request(opcode, addr, data);
    OpWordOpcode(opcode);
    assert f[..7] == f[..|f| - 1];
    Words32Join(addr);
    Words64Join(data);
    Wswap32OfWords(Word32(addr, 1), Word32(addr, 0));
    Wswap64OfWords(Word64(data, 3), Word64(data, 2), Word64(data, 1), Word64(data, 0));
  }

  lemma OpWordOpcode(opcode: bv16)
    requires opcode <= 3
    ensures OpWord(opcode, 5) >> 14 == opcode
  {
  }

  // ---------- the peer ----------

  // What the SPI driver call yields: a driver error, or eight received words.
  datatype Reply = HalFault | Answer(words: Frame)

  datatype Outcome = Fault | NoResponse | CrcError | Received

  function WordValue(w: bv16): nat { w as nat }

  function WordSum(words: seq<bv16>): nat {
    if words == [] then 0 else WordSum(words[..|words| - 1]) + WordValue(words[|words| - 1])
  }

  predicate AllWords(words: seq<bv16>, value: bv16) {
    forall i :: 0 <= i < |words| ==> words[i] == value
  }

  function OutcomeOf(reply: Reply): Outcome {
    match reply
    case HalFault => Fault
    case Answer(w) =>
      if AllWords(w, 0) || AllWords(w, 0xFFFF) then NoResponse
      else if CrcValid(w) then Received
      else CrcError
  }

  // Exchange number i gets reply peer(i), whatever that is.
  type Peer = nat -> Reply

  // ---------- error accounting ----------

  datatype IoStat = IoStat(
    busErrors: int, busTimeouts: int, halErrors: int, noResponseErrors: int, rxAddrErrors: int,
    rxCount: int, rxCrcErrors: int, rxOpcodeErrors: int, rxTimeouts: int, txCount: int,
    txCrcErrors: int)

  // How many of the first n exchanges ended this way.
  function Count(peer: Peer, n: nat, outcome: Outcome): nat {
    if n == 0 then 0
    else Count(peer, n - 1, outcome) + if OutcomeOf(peer(n - 1)) == outcome then 1 else 0
  }

  // Every exchange so far is in exactly the counters it belongs to.
  predicate Accounted(stat: IoStat, peer: Peer, n: nat) {
    && stat.halErrors == Count(peer, n, Fault)
    && stat.noResponseErrors == Count(peer, n, NoResponse)
    && stat.rxCrcErrors == Count(peer, n, CrcError)
    && stat.rxCount == Count(peer, n, CrcError) + Count(peer, n, Received)
    && stat.txCount == n - Count(peer, n, Fault)
  }

  lemma {:induction false} CountsAddUp(peer: Peer, n: nat)
    ensures Count(peer, n, Fault) + Count(peer, n, NoResponse) + Count(peer, n, CrcError)
            + Count(peer, n, Received) == n
  {
    hide OutcomeOf;
    if n == 0 {
    } else {
      CountsAddUp(peer, n - 1);
    }
  }

  // tx_count = rx_count + no_response_errors at all times.
  lemma TxIsRxPlusNoResponse(stat: IoStat, peer: Peer, n: nat)
    requires Accounted(stat, peer, n)
    ensures stat.txCount == stat.rxCount + stat.noResponseErrors
  {
    CountsAddUp(peer, n);
  }

  lemma {:induction false} SumBounds(words: seq<bv16>)
    ensures WordSum(words) <= 0xFFFF * |words|
    ensures WordSum(words) == 0 <==> AllWords(words, 0)
    ensures WordSum(words) == 0xFFFF * |words| <==> AllWords(words, 0xFFFF)
  {
    hide WordValue, AllWords;
    if words == [] {
      NoWords(words);
    } else {
      var n := |words| - 1;
      SumBounds(words[..n]);
      WordRange(words[n]);
      AllWordsLast(words, 0);
      AllWordsLast(words, 0xFFFF);
    }
  }

  lemma NoWords(words: seq<bv16>)
    requires words == []
    ensures AllWords(words, 0) && AllWords(words, 0xFFFF)
  {
  }

  lemma AllWordsLast(words: seq<bv16>, value: bv16)
    requires words != []
    ensures AllWords(words, value) <==>
            AllWords(words[..|words| - 1], value) && words[|words| - 1] == value
  {
  }

  lemma WordRange(w: bv16)
    ensures WordValue(w) <= 0xFFFF
    ensures WordValue(w) == 0 <==> w == 0
    ensures WordValue(w) == 0xFFFF <==> w == 0xFFFF
  {
  }

  // ---------- what the code counts for one exchange ----------

  function NoteExchange(stat: IoStat, outcome: Outcome): IoStat {
    match outcome
    case Fault => stat.(halErrors := stat.halErrors + 1)
    case NoResponse => stat.(txCount := stat.txCount + 1, noResponseErrors := stat.noResponseErrors + 1)
    case CrcError => stat.(txCount := stat.txCount + 1, rxCount := stat.rxCount + 1,
                           rxCrcErrors := stat.rxCrcErrors + 1)
    case Received => stat.(txCount := stat.txCount + 1, rxCount := stat.rxCount + 1)
  }

  lemma NoteKeepsAccounted(stat: IoStat, peer: Peer, n: nat)
    requires Accounted(stat, peer, n)
    ensures Accounted(NoteExchange(stat, OutcomeOf(peer(n))), peer, n + 1)
  {
    hide OutcomeOf;
  }

  // A NULL or STATUS reply must carry that opcode's own address constant.
  predicate AddrMismatch(frame: Frame) {
    || (Opcode(frame) == OP_NULL && ReplyAddr(frame) != ADDR_OP_NULL)
    || (Opcode(frame) == OP_ST && ReplyAddr(frame) != ADDR_OP_STAT)
  }

  predicate Arrived(reply: Reply) { reply.Answer? && OutcomeOf(reply) == Received }

  // What a received frame adds to rx_addr_errors in fpga_spi_v3_txn.
  function TxnAddrErrors(reply: Reply): int {
    if Arrived(reply) && AddrMismatch(reply.words) then 1 else 0
  }

  // The reply that answers a read of addr, or a status request.
  predicate AnswersRead(reply: Reply, addr: bv32) {
    Arrived(reply) && Opcode(reply.words) == OP_RD && ReplyAddr(reply.words) == addr
  }

  predicate AnswersStatus(reply: Reply) {
    Arrived(reply) && Opcode(reply.words) == OP_ST && ReplyAddr(reply.words) == ADDR_OP_STAT
  }

  // What a poll reply adds to rx_addr_errors and rx_opcode_errors.
  function ReadAddrErrors(reply: Reply, addr: bv32): int {
    TxnAddrErrors(reply) +
    if Arrived(reply) && Opcode(reply.words) == OP_RD && ReplyAddr(reply.words) != addr then 1 else 0
  }

  function UnexpectedOpcode(reply: Reply, expected: bv16): int {
    if Arrived(reply) && !AddrMismatch(reply.words) && Opcode(reply.words) != OP_NULL
       && Opcode(reply.words) != expected then 1 else 0
  }

  function Nulls(n: nat): (frames: seq<Frame>)
    ensures |frames| == n
  {
    seq(n, _ => Request(OP_NULL, 0, 0))
  }

  // How many polls follow an accepted request: stop at a failure or an answer.
  function Polls(first: Reply, second: Reply, answered: bool): nat {
    if !Arrived(first) then 0 else if !Arrived(second) || answered then 1 else 2
  }

  // The buffer a request is built in, before the fields are swapped.
  function Draft(opcode: bv16, addr: bv32, data: bv64): Frame {
    [opcode << 14, Word32(addr, 0), Word32(addr, 1),
     Word64(data, 0), Word64(data, 1), Word64(data, 2), Word64(data, 3), 0]
  }

  class SpiMaster {
    const tx: array<bv16>
    const rx: array<bv16>
    var rxCrcError: bool
    var rxAddrError: bool
    var stat: IoStat
    var prevTimeouts: uint16
    var prevCrcErrors: uint16
    var prevErrors: uint16
    // the environment: what the peer answers, and what has been sent to it
    const peer: Peer
    var exchanges: nat
    ghost var sent: seq<Frame>

    ghost predicate Valid()
      reads this, tx, rx
    {
      && tx.Length == SPI_FRAME_LEN && rx.Length == SPI_FRAME_LEN && tx != rx
      && Accounted(stat, peer, exchanges) && |sent| == exchanges
      && forall i :: 0 <= i < |sent| ==> CrcValid(sent[i])
    }

    constructor (peer: Peer)
      ensures Valid() && this.peer == peer && exchanges == 0 && fresh(tx) && fresh(rx)
    {
      hide CrcValid, OutcomeOf;
      tx := new bv16[SPI_FRAME_LEN];
      rx := new bv16[SPI_FRAME_LEN];
      rxCrcError, rxAddrError := false, false;
      stat := IoStat(0, 0, 0, 0, 0, 0, 0, 0, 0, 0, 0);
      prevTimeouts, prevCrcErrors, prevErrors := 0, 0, 0;
      this.peer := peer;
      exchanges := 0;
      sent := [];
    }

    // clear_v3_buf followed by filling in the request's fields.
    method Prepare(opcode: bv16, addr: bv32, data: bv64)
      requires Valid()
      modifies tx, rx
      ensures Valid() && tx[..] == Draft(opcode, addr, data)
    {
      hide CrcValid, Accounted, Word32, Word64;
      for i := 0 to SPI_FRAME_LEN
        invariant forall k :: 0 <= k < i ==> tx[k] == 0 && rx[k] == 0
      {
        tx[i] := 0;
        rx[i] := 0;
      }
      tx[0] := opcode << 14;
      StoreAddr(tx, addr);
      StoreData(tx, data);
    }

    // The SPI driver call: full duplex exchange of the two buffers.
    method HalTxRx() returns (ok: bool)
      requires tx.Length == SPI_FRAME_LEN && rx.Length == SPI_FRAME_LEN && tx != rx
      modifies this`exchanges, this`sent, rx
      ensures exchanges == old(exchanges) + 1 && sent == old(sent) + [tx[..]]
      ensures ok <==> peer(old(exchanges)).Answer?
      ensures ok ==> rx[..] == peer(old(exchanges)).words
    {
      sent := sent + [tx[..]];
      var reply := peer(exchanges);
      exchanges := exchanges + 1;
      if reply.HalFault? {
        return false;
      }
      for i := 0 to SPI_FRAME_LEN
        invariant rx[..i] == reply.words[..i]
        modifies rx
      {
        rx[i] := reply.words[i];
      }
      return true;
    }

    // The CRC goes into the last word of the frame.
    method Seal()
      requires tx.Length == SPI_FRAME_LEN
      modifies tx
      ensures tx[..] == old(tx[..7]) + [CrcOfWords(old(tx[..7]))]
    {
      hide CrcOfWords,
           CrcOfBits, BytesBits, BigEndianBytes;
      ghost var body := tx[..7];
      var crc := Crc16Be16(tx[..SPI_FRAME_LEN - 1]);
      tx[SPI_FRAME_LEN - 1] := crc;
      assert tx[..] == body + [crc];
    }

    method TxRx() returns (ok: bool)
      requires Valid()
      modifies this`exchanges, this`sent, this`stat, tx, rx
      ensures Valid() && exchanges == old(exchanges) + 1
      ensures ok <==> Arrived(peer(old(exchanges)))
      ensures ok ==> rx[..] == peer(old(exchanges)).words
      ensures stat == NoteExchange(old(stat), OutcomeOf(peer(old(exchanges))))
      ensures sent == old(sent) + [old(tx[..7]) + [CrcOfWords(old(tx[..7]))]]
    {
      hide CrcOfWords, CrcValid, Accounted, OutcomeOf, Arrived, NoteExchange;
      ghost var body, reply := tx[..7], peer(exchanges);
      NoteKeepsAccounted(stat, peer, exchanges);
      SealedFrame(body);
      Seal();
      ok := HalTxRx();
      if !ok {
        FaultOutcome(stat, reply);
        stat := stat.(halErrors := stat.halErrors + 1);
        return false;
      }
      ok := Judge(reply);
    }

    // What fpga_spi_v3_tx_rx does with the received words.
    method Judge(ghost reply: Reply) returns (ok: bool)
      requires rx.Length == SPI_FRAME_LEN && reply.Answer? && rx[..] == reply.words
      modifies this`stat
      ensures stat == NoteExchange(old(stat), OutcomeOf(reply))
      ensures ok <==> Arrived(reply)
    {
      hide CrcOfWords, OutcomeOf, WordSum,
           CrcOfBits, BytesBits, BigEndianBytes;
      AnswerOutcome(reply);
      stat := stat.(txCount := stat.txCount + 1);
      var sum := SumWords();
      if sum == 0 || sum == 0xFFFF * SPI_FRAME_LEN {
        stat := stat.(noResponseErrors := stat.noResponseErrors + 1);
        return false;
      }
      stat := stat.(rxCount := stat.rxCount + 1);
      var rxCrc := Crc16Be16(rx[..SPI_FRAME_LEN - 1]);
      assert rx[..7] == reply.words[..7];
      var crcError := rxCrc != rx[SPI_FRAME_LEN - 1];
      if crcError {
        stat := stat.(rxCrcErrors := stat.rxCrcErrors + 1);
      }
      return !crcError;
    }

    // fpga_spi_v3_txn: swap the fields, exchange, check, swap the reply's fields back.
    method Txn(ghost opcode: bv16, ghost addr: bv32, ghost data: bv64) returns (ok: bool)
      requires Valid() && tx[..] == Draft(opcode, addr, data)
      modifies this`exchanges, this`sent, this`stat, this`rxCrcError, this`rxAddrError, tx, rx
      ensures Valid() && exchanges == old(exchanges) + 1
      ensures sent == old(sent) + [Request(opcode, addr, data)]
      ensures var reply := peer(old(exchanges));
              && (ok <==> Arrived(reply))
              && stat == TxnStat(old(stat), reply)
              && (ok ==> !rxCrcError && (rxAddrError <==> AddrMismatch(reply.words)) && Holds(rx[..], reply))
    {
      hide CrcValid, CrcOfWords, Accounted, OutcomeOf, NoteExchange, Draft, Request, Holds, AddrMismatch;
      ghost var reply := peer(exchanges);
      SwapRequest(opcode, addr, data);
      RequestIsSealed(opcode, addr, data);
      ok := TxRx();
      if !ok {
        return false;
      }
      ghost var before := stat;
      CheckReply(reply);
      SwapReply(reply);
      AccountedIgnoresPollErrors(before, stat, peer, exchanges);
    }

    method CheckReply(ghost reply: Reply)
      requires rx.Length == SPI_FRAME_LEN && Arrived(reply) && rx[..] == reply.words
      modifies this`stat, this`rxCrcError, this`rxAddrError
      ensures !rxCrcError && (rxAddrError <==> AddrMismatch(reply.words))
      ensures stat == old(stat).(rxAddrErrors := old(stat.rxAddrErrors) + TxnAddrErrors(reply))
    {
      hide CrcOfWords, CrcValid, OutcomeOf, Join32, Wswap32, Opcode, TxnAddrErrors,
           CrcOfBits, BytesBits, BigEndianBytes;
      var crc := Crc16Be16(rx[..SPI_FRAME_LEN - 1]);
      rxCrcError := crc != rx[SPI_FRAME_LEN - 1];
      ArrivedIsValid(reply);
      MismatchIsCounted(reply);
      assert rx[..7] == reply.words[..7];
      if rxCrcError {
        // fpga_spi_v3_tx_rx has already rejected such a frame: the second count in
        // fpga_spi_v3_txn, and the retry on v3_rx_crc_error, are never reached
        assert false;
      }
      rxAddrError := false;
      if Opcode(rx[..]) == OP_NULL {
        rxAddrError := Wswap32(AddrField(rx[..])) != ADDR_OP_NULL;
      } else if Opcode(rx[..]) == OP_ST {
        rxAddrError := Wswap32(AddrField(rx[..])) != ADDR_OP_STAT;
      }
      if rxAddrError {
        stat := stat.(rxAddrErrors := stat.rxAddrErrors + 1);
      }
    }

    method SwapRequest(ghost opcode: bv16, ghost addr: bv32, ghost data: bv64)
      requires tx.Length == SPI_FRAME_LEN && tx[..] == Draft(opcode, addr, data)
      modifies tx
      ensures tx[..7] == Request(opcode, addr, data)[..7]
    {
      hide Word32, Word64, Join32, Join64, Wswap32, Wswap64, CrcOfWords;
      SetLength(opcode);
      Words32Join(addr);
      Words64Join(data);
      Wswap32Stored(addr);
      Wswap64Stored(data);
      tx[0] := (tx[0] & 0xFF00) | LENGTH_FIELD;
      StoreAddr(tx, Wswap32(Join32(tx[1], tx[2])));
      StoreData(tx, Wswap64(Join64(tx[3], tx[4], tx[5], tx[6])));
    }

    method SwapReply(ghost reply: Reply)
      requires rx.Length == SPI_FRAME_LEN && reply.Answer? && rx[..] == reply.words
      modifies rx
      ensures Holds(rx[..], reply)
    {
      hide Word32, Word64, Join32, Join64, Wswap32, Wswap64;
      Words32Join(Wswap32(AddrField(rx[..])));
      Words64Join(Wswap64(DataField(rx[..])));
      StoreAddr(rx, Wswap32(AddrField(rx[..])));
      StoreData(rx, Wswap64(DataField(rx[..])));
    }

    // fpga_spi_v3_hal_read_reg.  When the read fails, *data keeps its value.
    method ReadReg(addr: bv32, target: bv64) returns (ok: bool, data: bv64)
      requires Valid()
      modifies this`exchanges, this`sent, this`stat, this`rxCrcError, this`rxAddrError, tx, rx
      ensures Valid()
      ensures var r0, r1, r2 := old(peer(exchanges)), old(peer(exchanges + 1)), old(peer(exchanges + 2));
              && (ok <==> Arrived(r0) && (AnswersRead(r1, addr) || (Arrived(r1) && AnswersRead(r2, addr))))
              && data == (if !ok then target
                          else if AnswersRead(r1, addr) then ReplyData(r1.words) else ReplyData(r2.words))
              && sent == old(sent) + [Request(OP_RD, addr, 0)] + Nulls(Polls(r0, r1, AnswersRead(r1, addr)))
              && stat == ReadStat(old(stat), addr, r0, r1, r2)
    {
      hide CrcValid, Accounted, OutcomeOf, Arrived, AnswersRead, Request, TxnStat, PollStat, Draft;
      ghost var start, r0, before := exchanges, peer(exchanges), stat;
      ghost var r1, r2 := peer(exchanges + 1), peer(exchanges + 2);
      data := target;
      Prepare(OP_RD, addr, 0);
      ok := Txn(OP_RD, addr, 0);
      if !ok {
        return false, data;
      }
      for i := 0 to MAX_RETRY
        invariant Valid() && exchanges == start + 1 + i && data == target
        invariant sent == old(sent) + [Request(OP_RD, addr, 0)] + Nulls(i)
        invariant i >= 1 ==> Arrived(r1) && !AnswersRead(r1, addr)
        invariant i == 2 ==> Arrived(r2) && !AnswersRead(r2, addr)
        invariant stat == if i == 0 then TxnStat(before, r0)
                          else if i == 1 then PollStat(TxnStat(before, r0), r1, addr)
                          else PollStat(PollStat(TxnStat(before, r0), r1, addr), r2, addr)
      {
        var answered;
        ok, answered := PollRead(addr);
        assert Nulls(i + 1) == Nulls(i) + [Request(OP_NULL, 0, 0)];
        if !ok {
          return false, data;
        }
        if answered {
          data := DataField(rx[..]);
          return true, data;
        }
      }
      AccountedIgnoresPollErrors(stat, stat.(rxTimeouts := stat.rxTimeouts + 1), peer, exchanges);
      stat := stat.(rxTimeouts := stat.rxTimeouts + 1);
      return false, data;
    }

    // One pass of the poll loop of fpga_spi_v3_hal_read_reg.
    method PollRead(addr: bv32) returns (ok: bool, answered: bool)
      requires Valid()
      modifies this`exchanges, this`sent, this`stat, this`rxCrcError, this`rxAddrError, tx, rx
      ensures Valid() && exchanges == old(exchanges) + 1
      ensures sent == old(sent) + [Request(OP_NULL, 0, 0)]
      ensures var reply := peer(old(exchanges));
              && (ok <==> Arrived(reply)) && (answered <==> AnswersRead(reply, addr)) && (answered ==> ok)
              && stat == PollStat(old(stat), reply, addr)
              && (answered ==> DataField(rx[..]) == ReplyData(reply.words))
    {
      hide CrcValid, Accounted, OutcomeOf, Request, NoteExchange, Draft, Wswap32, Wswap64, Join32, Join64;
      Prepare(OP_NULL, 0, 0);
      ok := Txn(OP_NULL, 0, 0);
      if !ok || rxCrcError || rxAddrError {
        return ok, false;
      }
      ghost var before := stat;
      answered := false;
      if Opcode(rx[..]) == OP_NULL {
      } else if Opcode(rx[..]) == OP_RD {
        if AddrField(rx[..]) != addr {
          stat := stat.(rxAddrErrors := stat.rxAddrErrors + 1);
        } else {
          answered := true;
        }
      } else {
        stat := stat.(rxOpcodeErrors := stat.rxOpcodeErrors + 1);
      }
      AccountedIgnoresPollErrors(before, stat, peer, exchanges);
    }

    // fpga_spi_v3_hal_write_reg: one frame, built and sealed by hand.
    method WriteReg(addr: bv32, data: bv64) returns (ok: bool)
      requires Valid()
      modifies this`exchanges, this`sent, this`stat, tx, rx
      ensures Valid() && exchanges == old(exchanges) + 1
      ensures ok <==> Arrived(peer(old(exchanges)))
      ensures sent == old(sent) + [Request(OP_WR, addr, data)]
      ensures stat == NoteExchange(old(stat), OutcomeOf(peer(old(exchanges))))
    {
      hide CrcValid, CrcOfWords, Accounted, OutcomeOf, Word32, Word64, Wswap32, Wswap64,
           CrcOfBits, BytesBits, BigEndianBytes;
      Prepare(OP_WR, 0, 0);
      SetLength(OP_WR);
      Wswap32Stored(addr);
      Wswap64Stored(data);
      tx[0] := tx[0] | LENGTH_FIELD;
      StoreAddr(tx, Wswap32(addr));
      StoreData(tx, Wswap64(data));
      assert tx[..7] == Request(OP_WR, addr, data)[..7];
      RequestIsSealed(OP_WR, addr, data);
      var crc := Crc16Be16(tx[..SPI_FRAME_LEN - 1]);
      tx[7] := crc;
      assert tx[..7] == Request(OP_WR, addr, data)[..7];
      ok := TxRx();
    }

    // fpga_spi_v3_hal_read_status: like a read, but the answer is a STATUS frame
    // whose data words are the peer's error counters.
    method ReadStatus() returns (ok: bool)
      requires Valid()
      modifies this, tx, rx
      ensures Valid()
      ensures var r0, r1, r2 := old(peer(exchanges)), old(peer(exchanges + 1)), old(peer(exchanges + 2));
              && (ok <==> Arrived(r0) && (AnswersStatus(r1) || (Arrived(r1) && AnswersStatus(r2))))
              && sent == old(sent) + [Request(OP_ST, 0, 0)] + Nulls(Polls(r0, r1, AnswersStatus(r1)))
              && stat == (if ok then AddTotals(StatusStat(old(stat), r0, r1, r2),
                                               Increment(old(prevTimeouts), prevTimeouts),
                                               Increment(old(prevCrcErrors), prevCrcErrors),
                                               Increment(old(prevErrors), prevErrors))
                          else StatusStat(old(stat), r0, r1, r2))
              && (prevTimeouts, prevCrcErrors, prevErrors) ==
                   (if ok then CounterWords((if AnswersStatus(r1) then r1 else r2).words)
                    else (old(prevTimeouts), old(prevCrcErrors), old(prevErrors)))
    {
      hide CrcValid, Accounted, OutcomeOf, Arrived, AnswersStatus, Request, TxnStat, StatusPoll, Draft,
           AddTotals, ReplyData, Word64, CounterWords, Increment;
      ghost var start, r0, before := exchanges, peer(exchanges), stat;
      ghost var r1, r2 := peer(exchanges + 1), peer(exchanges + 2);
      Prepare(OP_ST, 0, 0);
      ok := Txn(OP_ST, 0, 0);
      if !ok {
        return false;
      }
      for i := 0 to MAX_RETRY
        invariant Valid() && exchanges == start + 1 + i
        invariant sent == old(sent) + [Request(OP_ST, 0, 0)] + Nulls(i)
        invariant i >= 1 ==> Arrived(r1) && !AnswersStatus(r1)
        invariant i == 2 ==> Arrived(r2) && !AnswersStatus(r2)
        invariant prevTimeouts == old(prevTimeouts)
        invariant prevCrcErrors == old(prevCrcErrors) && prevErrors == old(prevErrors)
        invariant stat == if i == 0 then TxnStat(before, r0)
                          else if i == 1 then StatusPoll(TxnStat(before, r0), r1)
                          else StatusPoll(StatusPoll(TxnStat(before, r0), r1), r2)
      {
        var answered;
        ok, answered := PollStatus();
        assert Nulls(i + 1) == Nulls(i) + [Request(OP_NULL, 0, 0)];
        if !ok {
          return false;
        }
        if answered {
          StatusCounters(if i == 0 then r1 else r2);
          AddSpiStat(DataField(rx[..]));
          return true;
        }
      }
      AccountedIgnoresPollErrors(stat, stat.(rxTimeouts := stat.rxTimeouts + 1), peer, exchanges);
      stat := stat.(rxTimeouts := stat.rxTimeouts + 1);
      return false;
    }

    // One pass of the poll loop of fpga_spi_v3_hal_read_status.
    method PollStatus() returns (ok: bool, answered: bool)
      requires Valid()
      modifies this`exchanges, this`sent, this`stat, this`rxCrcError, this`rxAddrError, tx, rx
      ensures Valid() && exchanges == old(exchanges) + 1
      ensures sent == old(sent) + [Request(OP_NULL, 0, 0)]
      ensures var reply := peer(old(exchanges));
              && (ok <==> Arrived(reply)) && (answered <==> AnswersStatus(reply)) && (answered ==> ok)
              && stat == StatusPoll(old(stat), reply)
              && (answered ==> DataField(rx[..]) == ReplyData(reply.words))
    {
      hide CrcValid, Accounted, OutcomeOf, Request, NoteExchange, Draft, Wswap32, Wswap64, Join32, Join64;
      Prepare(OP_NULL, 0, 0);
      ok := Txn(OP_NULL, 0, 0);
      if !ok || rxCrcError || rxAddrError {
        return ok, false;
      }
      ghost var before := stat;
      answered := false;
      if Opcode(rx[..]) == OP_NULL {
      } else if Opcode(rx[..]) == OP_ST {
        answered := true;
      } else {
        stat := stat.(rxOpcodeErrors := stat.rxOpcodeErrors + 1);
      }
      AccountedIgnoresPollErrors(before, stat, peer, exchanges);
    }

    // One of the module's three entry points.
    method Perform(op: Operation, ghost before: IoStat, ghost samples: (uint16, uint16, uint16),
                   ghost readings: seq<Reading>)
      requires Valid() && Follows(before, samples, readings, stat, (prevTimeouts, prevCrcErrors, prevErrors))
      modifies this, tx, rx
      ensures Valid() && exchanges == old(exchanges) + Exchanges(peer, old(exchanges), op)
      ensures Follows(before, samples, readings + if op.ReadStatus? then [ReadingOf(peer, old(exchanges))] else [],
                      stat, (prevTimeouts, prevCrcErrors, prevErrors))
    {
      hide Arrived, AnswersStatus, AnswersRead, Accounted, CrcValid, StatusStat, ReadStat, Follows, ReadingOf,
           Accumulate, NoteExchange;
      ghost var was, were, x := stat, (prevTimeouts, prevCrcErrors, prevErrors), exchanges;
      ghost var r0, r1, r2 := peer(x), peer(x + 1), peer(x + 2);
      match op
      case ReadStatus =>
        var ok := ReadStatus();
        ReadingFollows(before, samples, readings, was, were, peer, x,
                       stat, (prevTimeouts, prevCrcErrors, prevErrors), r0, r1, r2);
      case Read(addr) =>
        var ok, data := ReadReg(addr, 0);
        ReadStatKeepsTotals(was, addr, r0, r1, r2);
        SameTotalsFollow(before, samples, readings, was, stat, were);
      case Write(addr, data) =>
        var ok := WriteReg(addr, data);
        NoteKeepsTotals(was, OutcomeOf(r0));
        SameTotalsFollow(before, samples, readings, was, stat, were);
    }

    // Any run of them.
    method Operate(ops: seq<Operation>)
      requires Valid()
      modifies this, tx, rx
      ensures Valid() && exchanges == ExchangeAfter(peer, old(exchanges), ops)
      ensures Follows(old(stat), old((prevTimeouts, prevCrcErrors, prevErrors)), Readings(peer, old(exchanges), ops),
                      stat, (prevTimeouts, prevCrcErrors, prevErrors))
    {
      hide Accounted, CrcValid, Follows, ReadingOf, Exchanges;
      ghost var start, before, samples := exchanges, stat, (prevTimeouts, prevCrcErrors, prevErrors);
      NothingFollows(stat, samples);
      for i := 0 to |ops|
        invariant Valid() && exchanges == ExchangeAfter(peer, start, ops[..i])
        invariant Follows(before, samples, Readings(peer, start, ops[..i]), stat, (prevTimeouts, prevCrcErrors, prevErrors))
      {
        assert ops[..i + 1][..i] == ops[..i];
        Perform(ops[i], before, samples, Readings(peer, start, ops[..i]));
      }
      assert ops[..|ops|] == ops;
    }

    method AddSpiStat(data: bv64)
      requires Valid()
      modifies this`stat, this`prevTimeouts, this`prevCrcErrors, this`prevErrors
      ensures Valid()
      ensures prevTimeouts == Word64(data, 3) as int && prevCrcErrors == Word64(data, 2) as int
      ensures prevErrors == Word64(data, 1) as int
      ensures stat == AddTotals(old(stat), Increment(old(prevTimeouts), prevTimeouts),
                                Increment(old(prevCrcErrors), prevCrcErrors),
                                Increment(old(prevErrors), prevErrors))
    {
      hide CrcValid, Count, Word64;
      var timeouts: uint16 := Word64(data, 3) as int;
      var crcErrors: uint16 := Word64(data, 2) as int;
      var errors: uint16 := Word64(data, 1) as int;
      stat := stat.(busTimeouts := stat.busTimeouts + Increment(prevTimeouts, timeouts),
                    txCrcErrors := stat.txCrcErrors + Increment(prevCrcErrors, crcErrors),
                    busErrors := stat.busErrors + Increment(prevErrors, errors));
      prevTimeouts, prevCrcErrors, prevErrors := timeouts, crcErrors, errors;
    }

    method SumWords() returns (sum: nat)
      requires rx.Length == SPI_FRAME_LEN
      ensures sum == WordSum(rx[..])
    {
      sum := 0;
      for i := 0 to SPI_FRAME_LEN
        invariant sum == WordSum(rx[..i])
      {
        sum := sum + WordValue(rx[i]);
        assert rx[..i + 1][..i] == rx[..i];
      }
      assert rx[..SPI_FRAME_LEN] == rx[..];
    }
  }

  function TxnStat(stat: IoStat, reply: Reply): IoStat {
    var s := NoteExchange(stat, OutcomeOf(reply));
    s.(rxAddrErrors := s.rxAddrErrors + TxnAddrErrors(reply))
  }

  function PollStat(stat: IoStat, reply: Reply, addr: bv32): IoStat {
    var s := NoteExchange(stat, OutcomeOf(reply));
    s.(rxAddrErrors := s.rxAddrErrors + ReadAddrErrors(reply, addr),
       rxOpcodeErrors := s.rxOpcodeErrors + UnexpectedOpcode(reply, OP_RD))
  }

  function ReadStat(stat: IoStat, addr: bv32, r0: Reply, r1: Reply, r2: Reply): IoStat {
    var s0 := TxnStat(stat, r0);
    if !Arrived(r0) then s0
    else
      var s1 := PollStat(s0, r1, addr);
      if !Arrived(r1) || AnswersRead(r1, addr) then s1
      else
        var s2 := PollStat(s1, r2, addr);
        if !Arrived(r2) || AnswersRead(r2, addr) then s2
        else s2.(rxTimeouts := s2.rxTimeouts + 1)
  }

  function StatusPoll(stat: IoStat, reply: Reply): IoStat {
    var s := TxnStat(stat, reply);
    s.(rxOpcodeErrors := s.rxOpcodeErrors + UnexpectedOpcode(reply, OP_ST))
  }

  function StatusStat(stat: IoStat, r0: Reply, r1: Reply, r2: Reply): IoStat {
    var s0 := TxnStat(stat, r0);
    if !Arrived(r0) then s0
    else
      var s1 := StatusPoll(s0, r1);
      if !Arrived(r1) || AnswersStatus(r1) then s1
      else
        var s2 := StatusPoll(s1, r2);
        if !Arrived(r2) || AnswersStatus(r2) then s2
        else s2.(rxTimeouts := s2.rxTimeouts + 1)
  }

  function AddTotals(stat: IoStat, timeouts: int, crcErrors: int, errors: int): IoStat {
    stat.(busTimeouts := stat.busTimeouts + timeouts, txCrcErrors := stat.txCrcErrors + crcErrors,
          busErrors := stat.busErrors + errors)
  }

  // The words of a status frame that hold the peer's counters, as received: register
  // timeouts, CRC errors, register errors.
  function CounterWords(w: Frame): (uint16, uint16, uint16) { (w[3] as int, w[4] as int, w[5] as int) }

  lemma CountersOnWire(w: Frame)
    ensures var data := ReplyData(w);
            Word64(data, 3) == w[3] && Word64(data, 2) == w[4] && Word64(data, 1) == w[5]
  {
    hide Join64, Word64, Wswap64;
    Wswap64OfWords(w[3], w[4], w[5], w[6]);
    Join64Words(w[6], w[5], w[4], w[3]);
  }

  lemma StatusCounters(reply: Reply)
    requires AnswersStatus(reply)
    ensures reply.Answer?
    ensures var data := ReplyData(reply.words);
            (Word64(data, 3) as int, Word64(data, 2) as int, Word64(data, 1) as int) == CounterWords(reply.words)
  {
    hide ReplyData, Word64, OutcomeOf;
    CountersOnWire(reply.words);
  }

  // ---------- runs of status polls ----------

  datatype Reading = NoReading | Status(frame: Frame)

  predicate StatusRead(r0: Reply, r1: Reply, r2: Reply) {
    Arrived(r0) && (AnswersStatus(r1) || (Arrived(r1) && AnswersStatus(r2)))
  }

  // What the status poll that starts at exchange x yields.
  function ReadingOf(peer: Peer, x: nat): Reading {
    var r0, r1, r2 := peer(x), peer(x + 1), peer(x + 2);
    if StatusRead(r0, r1, r2) then Reading.Status((if AnswersStatus(r1) then r1 else r2).words)
    else NoReading
  }

  datatype Operation = ReadStatus | Read(addr: bv32) | Write(addr: bv32, data: bv64)

  // How many exchanges an operation takes when the first is number x.
  function Exchanges(peer: Peer, x: nat, op: Operation): nat {
    match op
    case ReadStatus => 1 + Polls(peer(x), peer(x + 1), AnswersStatus(peer(x + 1)))
    case Read(addr) => 1 + Polls(peer(x), peer(x + 1), AnswersRead(peer(x + 1), addr))
    case Write(_, _) => 1
  }

  function ExchangeAfter(peer: Peer, x: nat, ops: seq<Operation>): nat {
    if ops == [] then x
    else
      var at := ExchangeAfter(peer, x, ops[..|ops| - 1]);
      at + Exchanges(peer, at, ops[|ops| - 1])
  }

  // What the status polls among the operations yield.
  function Readings(peer: Peer, x: nat, ops: seq<Operation>): seq<Reading> {
    if ops == [] then []
    else
      var before := ops[..|ops| - 1];
      Readings(peer, x, before) +
      if ops[|ops| - 1].ReadStatus? then [ReadingOf(peer, ExchangeAfter(peer, x, before))] else []
  }

  // One counter's column of the readings: its word of each status frame.
  function Timeout(reading: Reading): Observation {
    if reading.NoReading? then Missed else Seen(reading.frame[3] as int)
  }

  function CrcCount(reading: Reading): Observation {
    if reading.NoReading? then Missed else Seen(reading.frame[4] as int)
  }

  function RegError(reading: Reading): Observation {
    if reading.NoReading? then Missed else Seen(reading.frame[5] as int)
  }

  function Column(column: Reading -> Observation, readings: seq<Reading>): (polls: seq<Observation>)
    ensures |polls| == |readings|
    ensures forall i :: 0 <= i < |readings| ==> polls[i] == column(readings[i])
  {
    seq(|readings|, i requires 0 <= i < |readings| => column(readings[i]))
  }

  // The totals and previous samples are those before, moved on by the readings.
  predicate Follows(before: IoStat, samples: (uint16, uint16, uint16), readings: seq<Reading>,
                    after: IoStat, now: (uint16, uint16, uint16))
  {
    && Tracked(after.busTimeouts - before.busTimeouts, now.0) == Accumulate(samples.0, Column(Timeout, readings))
    && Tracked(after.txCrcErrors - before.txCrcErrors, now.1) == Accumulate(samples.1, Column(CrcCount, readings))
    && Tracked(after.busErrors - before.busErrors, now.2) == Accumulate(samples.2, Column(RegError, readings))
  }

  lemma NothingFollows(stat: IoStat, samples: (uint16, uint16, uint16))
    ensures Follows(stat, samples, [], stat, samples)
  {
  }

  lemma ColumnNext(column: Reading -> Observation, readings: seq<Reading>, reading: Reading)
    ensures Column(column, readings + [reading]) == Column(column, readings) + [column(reading)]
  {
  }

  lemma AccumulateNext(start: uint16, polls: seq<Observation>, poll: Observation)
    ensures Accumulate(start, polls + [poll]) ==
              var t := Accumulate(start, polls);
              if poll.Missed? then t else Tracked(t.total + Increment(t.last, poll.sample), poll.sample)
  {
    hide Increment;
    assert (polls + [poll])[..|polls|] == polls;
  }

  predicate SameTotals(a: IoStat, b: IoStat) {
    a.busTimeouts == b.busTimeouts && a.txCrcErrors == b.txCrcErrors && a.busErrors == b.busErrors
  }

  lemma SameTotalsFollow(before: IoStat, samples: (uint16, uint16, uint16), readings: seq<Reading>,
                         was: IoStat, after: IoStat, now: (uint16, uint16, uint16))
    requires Follows(before, samples, readings, was, now) && SameTotals(was, after)
    ensures Follows(before, samples, readings, after, now) && readings + [] == readings
  {
  }

  lemma NoteKeepsTotals(stat: IoStat, outcome: Outcome)
    ensures SameTotals(stat, NoteExchange(stat, outcome))
  {
  }

  lemma ReadStatKeepsTotals(stat: IoStat, addr: bv32, r0: Reply, r1: Reply, r2: Reply)
    ensures SameTotals(stat, ReadStat(stat, addr, r0, r1, r2))
  {
    hide Arrived, AnswersRead, OutcomeOf, UnexpectedOpcode, TxnAddrErrors, ReadAddrErrors, NoteExchange;
    var s0 := TxnStat(stat, r0);
    var s1 := PollStat(s0, r1, addr);
    NoteKeepsTotals(stat, OutcomeOf(r0));
    NoteKeepsTotals(s0, OutcomeOf(r1));
    NoteKeepsTotals(s1, OutcomeOf(r2));
  }

  lemma TxnKeepsTotals(stat: IoStat, reply: Reply)
    ensures SameTotals(stat, TxnStat(stat, reply)) && SameTotals(stat, StatusPoll(stat, reply))
  {
    hide OutcomeOf, UnexpectedOpcode, TxnAddrErrors;
  }

  lemma StatusStatKeepsTotals(stat: IoStat, r0: Reply, r1: Reply, r2: Reply)
    ensures SameTotals(stat, StatusStat(stat, r0, r1, r2))
  {
    hide Arrived, AnswersStatus, TxnStat, StatusPoll;
    var s0 := TxnStat(stat, r0);
    TxnKeepsTotals(stat, r0);
    TxnKeepsTotals(s0, r1);
    TxnKeepsTotals(StatusPoll(s0, r1), r2);
  }

  // One more status poll, as ReadStatus describes it, is one more reading.
  lemma ReadingFollows(before: IoStat, samples: (uint16, uint16, uint16), readings: seq<Reading>,
                       was: IoStat, were: (uint16, uint16, uint16), peer: Peer, x: nat,
                       after: IoStat, now: (uint16, uint16, uint16), r0: Reply, r1: Reply, r2: Reply)
    requires Follows(before, samples, readings, was, were)
    requires r0 == peer(x) && r1 == peer(x + 1) && r2 == peer(x + 2)
    requires now == (if StatusRead(r0, r1, r2) then CounterWords((if AnswersStatus(r1) then r1 else r2).words) else were)
    requires after ==
               if StatusRead(r0, r1, r2) then
                 AddTotals(StatusStat(was, r0, r1, r2), Increment(were.0, now.0), Increment(were.1, now.1),
                           Increment(were.2, now.2))
               else StatusStat(was, r0, r1, r2)
    ensures Follows(before, samples, readings + [ReadingOf(peer, x)], after, now)
  {
    hide Arrived, AnswersStatus, StatusStat, Accumulate, Increment, Column, StatusRead;
    var reading := ReadingOf(peer, x);
    StatusStatKeepsTotals(was, r0, r1, r2);
    ColumnFollows(samples.0, Timeout, readings, reading);
    ColumnFollows(samples.1, CrcCount, readings, reading);
    ColumnFollows(samples.2, RegError, readings, reading);
  }

  lemma ColumnFollows(start: uint16, column: Reading -> Observation, readings: seq<Reading>, reading: Reading)
    ensures Accumulate(start, Column(column, readings + [reading])) ==
              var t := Accumulate(start, Column(column, readings));
              if column(reading).Missed? then t
              else Tracked(t.total + Increment(t.last, column(reading).sample), column(reading).sample)
  {
    hide Accumulate, Increment, Column;
    ColumnNext(column, readings, reading);
    AccumulateNext(start, Column(column, readings), column(reading));
  }

  predicate AllCountable(start: uint16, steps: seq<Interval>, polls: seq<Observation>)
    requires |steps| == |polls|
  {
    forall k :: 0 <= k < |polls| ==> CountableAt(start, steps, polls, k)
  }

  // Main result: if the peer's replies report its counters truthfully, and no interval
  // between successful polls is uncountable, all three totals have grown by the true
  // events up to the last successful poll, failed polls or not.
  lemma TotalsAreTrue(before: IoStat, samples: (uint16, uint16, uint16), readings: seq<Reading>,
                      after: IoStat, now: (uint16, uint16, uint16),
                      timeouts: seq<Interval>, crcErrors: seq<Interval>, errors: seq<Interval>)
    requires Follows(before, samples, readings, after, now)
    requires Truthful(samples.0, timeouts, Column(Timeout, readings))
    requires Truthful(samples.1, crcErrors, Column(CrcCount, readings))
    requires Truthful(samples.2, errors, Column(RegError, readings))
    ensures AllCountable(samples.0, timeouts, Column(Timeout, readings)) ==>
              after.busTimeouts == before.busTimeouts + SeenTotal(timeouts, Column(Timeout, readings))
    ensures AllCountable(samples.1, crcErrors, Column(CrcCount, readings)) ==>
              after.txCrcErrors == before.txCrcErrors + SeenTotal(crcErrors, Column(CrcCount, readings))
    ensures AllCountable(samples.2, errors, Column(RegError, readings)) ==>
              after.busErrors == before.busErrors + SeenTotal(errors, Column(RegError, readings))
  {
    hide Accumulate, SeenTotal, CountableAt, Truthful;
    ColumnTotal(samples.0, timeouts, Column(Timeout, readings));
    ColumnTotal(samples.1, crcErrors, Column(CrcCount, readings));
    ColumnTotal(samples.2, errors, Column(RegError, readings));
  }

  lemma ColumnTotal(start: uint16, steps: seq<Interval>, polls: seq<Observation>)
    requires Truthful(start, steps, polls)
    ensures AllCountable(start, steps, polls) ==> Accumulate(start, polls).total == SeenTotal(steps, polls)
  {
    hide CountableAt, Accumulate, SeenTotal;
    TotalIsTrueCount(start, steps, polls);
    if AllCountable(start, steps, polls) {
      assert ExactAfter(start, steps, polls, |polls|);
      assert steps[..|steps|] == steps && polls[..|polls|] == polls;
    }
  }

  // The receive buffer holds the reply with its fields swapped back.
  predicate Holds(buffer: Frame, reply: Reply)
    requires reply.Answer?
  {
    && Opcode(buffer) == Opcode(reply.words)
    && AddrField(buffer) == ReplyAddr(reply.words) && DataField(buffer) == ReplyData(reply.words)
  }

  lemma SetLength(opcode: bv16)
    ensures ((opcode << 14) & 0xFF00) | LENGTH_FIELD == OpWord(opcode, LENGTH_FIELD)
  {
  }

  lemma ArrivedIsValid(reply: Reply)
    requires Arrived(reply)
    ensures CrcOfWords(reply.words[..7]) == reply.words[7]
  {
    hide CrcOfWords;
  }

  lemma MismatchIsCounted(reply: Reply)
    requires Arrived(reply)
    ensures TxnAddrErrors(reply) == if AddrMismatch(reply.words) then 1 else 0
  {
    hide OutcomeOf, AddrMismatch;
  }

  lemma AccountedIgnoresPollErrors(before: IoStat, after: IoStat, peer: Peer, n: nat)
    requires Accounted(before, peer, n)
    requires after == before.(rxAddrErrors := after.rxAddrErrors, rxOpcodeErrors := after.rxOpcodeErrors,
                              rxTimeouts := after.rxTimeouts)
    ensures Accounted(after, peer, n)
  {
    hide Count;
  }

  lemma RequestIsSealed(opcode: bv16, addr: bv32, data: bv64)
    ensures var f := Request(opcode, addr, data); f == f[..7] + [CrcOfWords(f[..7])]
  {
    hide CrcOfWords, Word32, Word64;
  }

  lemma SealedFrame(body: seq<bv16>)
    ensures CrcValid(body + [CrcOfWords(body)])
  {
    hide CrcOfWords;
    var frame := body + [CrcOfWords(body)];
    assert frame[..|frame| - 1] == body;
  }

  lemma FaultOutcome(stat: IoStat, reply: Reply)
    requires reply.HalFault?
    ensures !Arrived(reply) && NoteExchange(stat, OutcomeOf(reply)) == stat.(halErrors := stat.halErrors + 1)
  {
  }

  lemma AnswerOutcome(reply: Reply)
    requires reply.Answer?
    ensures var w := reply.words;
            OutcomeOf(reply) ==
              if WordSum(w) == 0 || WordSum(w) == 0xFFFF * SPI_FRAME_LEN then NoResponse
              else if w[7] == CrcOfWords(w[..7]) then Received else CrcError
  {
    hide CrcOfWords, WordSum, AllWords;
    SumBounds(reply.words);
  }

  // Storing a 32- or 64-bit field of the packed struct.
  method StoreAddr(buffer: array<bv16>, addr: bv32)
    requires buffer.Length == SPI_FRAME_LEN
    modifies buffer
    ensures buffer[1] == Word32(addr, 0) && buffer[2] == Word32(addr, 1)
    ensures forall i :: 0 <= i < SPI_FRAME_LEN && i != 1 && i != 2 ==> buffer[i] == old(buffer[i])
  {
    buffer[1] := Word32(addr, 0);
    buffer[2] := Word32(addr, 1);
  }

  method StoreData(buffer: array<bv16>, data: bv64)
    requires buffer.Length == SPI_FRAME_LEN
    modifies buffer
    ensures buffer[3] == Word64(data, 0) && buffer[4] == Word64(data, 1)
    ensures buffer[5] == Word64(data, 2) && buffer[6] == Word64(data, 3)
    ensures forall i :: 0 <= i < SPI_FRAME_LEN && !(3 <= i <= 6) ==> buffer[i] == old(buffer[i])
  {
    buffer[3] := Word64(data, 0);
    buffer[4] := Word64(data, 1);
    buffer[5] := Word64(data, 2);
    buffer[6] := Word64(data, 3);
  }

  // ---------- what the checks mean end to end ----------

  // A reply built like a request for this address is accepted, with its data.
  lemma FaithfulReplyAccepted(addr: bv32, data: bv64)
    ensures var reply := Answer(Request(OP_RD, addr, data));
            AnswersRead(reply, addr) && ReplyData(reply.words) == data
  {
    hide CrcValid, ReplyAddr, ReplyData, CrcOfWords, Word32, Word64, AllWords;
    var f := Request(OP_RD, addr, data);
    RequestReadsBack(OP_RD, addr, data);
    assert f[0] == 0x8005;
    NotAllWords(f, 0);
    NotAllWords(f, 0xFFFF);
  }

  lemma NotAllWords(frame: Frame, value: bv16)
    requires frame[0] != value
    ensures !AllWords(frame, value)
  {
  }

  // A frame that left the peer intact and was hit by a burst of up to 16 bits is
  // never taken as an answer to anything.
  lemma CorruptedReplyRejected(good: Frame, bad: Frame, k: nat)
    requires CrcValid(good) && good != bad
    requires forall i :: 0 <= i < 16 * SPI_FRAME_LEN && !(k <= i < k + 16) ==>
               WordsBits(good)[i] == WordsBits(bad)[i]
    ensures !Arrived(Answer(bad))
  {
    hide CrcValid, WordsBits, AllWords;
    BurstErrorDetected(good, bad, k);
  }

  // ---------- the frames on the wire ----------

  function High(x: bv32): bv16 { ((x >> 16) & 0xFFFF) as bv16 }
  function Low(x: bv32): bv16 { (x & 0xFFFF) as bv16 }

  // Requests word by word: opcode and length, address and data most significant word
  // first, CRC.
  lemma RequestsOnWire(addr: bv32, data: bv64)
    ensures Request(OP_NULL, addr, data)[0] == 0x0005 && Request(OP_WR, addr, data)[0] == 0x4005
    ensures Request(OP_RD, addr, data)[0] == 0x8005 && Request(OP_ST, addr, data)[0] == 0xC005
    ensures var w := Request(OP_WR, addr, data);
            && w[1] == High(addr) && w[2] == Low(addr)
            && w[3] == ((data >> 48) & 0xFFFF) as bv16 && w[4] == ((data >> 32) & 0xFFFF) as bv16
            && w[5] == ((data >> 16) & 0xFFFF) as bv16 && w[6] == (data & 0xFFFF) as bv16
            && w[7] == CrcOfWords(w[..7])
  {
    hide CrcOfWords;
    RequestIsSealed(OP_WR, addr, data);
  }

  lemma AddrOnWire(w: Frame, addr: bv32)
    ensures ReplyAddr(w) == addr <==> w[1] == High(addr) && w[2] == Low(addr)
  {
    hide Wswap32, Join32;
    Wswap32OfWords(w[1], w[2]);
    HighLow(w[2], w[1], addr);
  }

  lemma HighLow(low: bv16, high: bv16, addr: bv32)
    ensures Join32(low, high) == addr <==> high == High(addr) && low == Low(addr)
  {
  }

  // Replies word by word: what answers a read or a status request, and what is an
  // address mismatch of a NULL or STATUS frame.
  lemma RepliesOnWire(reply: Reply, addr: bv32)
    requires Arrived(reply)
    ensures var w := reply.words;
            && (AnswersRead(reply, addr) <==> w[0] >> 14 == 2 && w[1] == High(addr) && w[2] == Low(addr))
            && (AnswersStatus(reply) <==> w[0] >> 14 == 3 && w[1] == 0x57A7 && w[2] == 0x14F0)
            && (AddrMismatch(w) <==>
                  || (w[0] >> 14 == 0 && !(w[1] == 0xDEAD && w[2] == 0xCA5E))
                  || (w[0] >> 14 == 3 && !(w[1] == 0x57A7 && w[2] == 0x14F0)))
            && ReplyData(w) == Join64(w[6], w[5], w[4], w[3])
  {
    hide OutcomeOf, ReplyAddr, Wswap64, Join64, High, Low;
    var w := reply.words;
    AddrOnWire(w, addr);
    AddrOnWire(w, ADDR_OP_STAT);
    AddrOnWire(w, ADDR_OP_NULL);
    ConstantAddresses();
    Wswap64OfWords(w[3], w[4], w[5], w[6]);
  }

  lemma ConstantAddresses()
    ensures High(ADDR_OP_STAT) == 0x57A7 && Low(ADDR_OP_STAT) == 0x14F0
    ensures High(ADDR_OP_NULL) == 0xDEAD && Low(ADDR_OP_NULL) == 0xCA5E
  {
  }

  // ---------- every failure is counted once ----------

  // Driver faults, silent peers, CRC errors and polls without an answer.
  function Failures(stat: IoStat): int {
    stat.halErrors + stat.noResponseErrors + stat.rxCrcErrors + stat.rxTimeouts
  }

  function Failure(reply: Reply): int { if Arrived(reply) then 0 else 1 }

  lemma NoteFailure(stat: IoStat, reply: Reply)
    ensures Failures(NoteExchange(stat, OutcomeOf(reply))) == Failures(stat) + Failure(reply)
    ensures NoteExchange(stat, OutcomeOf(reply)).rxTimeouts == stat.rxTimeouts
  {
    hide CrcValid, AllWords;
  }

  lemma PollFailure(stat: IoStat, reply: Reply, addr: bv32)
    ensures Failures(TxnStat(stat, reply)) == Failures(stat) + Failure(reply)
    ensures Failures(PollStat(stat, reply, addr)) == Failures(stat) + Failure(reply)
    ensures Failures(StatusPoll(stat, reply)) == Failures(stat) + Failure(reply)
  {
    hide OutcomeOf, Arrived, NoteExchange, TxnAddrErrors, ReadAddrErrors, UnexpectedOpcode;
    NoteFailure(stat, reply);
  }

  // A register read adds one failure when it fails and none when it succeeds; so does
  // a status poll.
  lemma FailureCountedOnce(stat: IoStat, addr: bv32, r0: Reply, r1: Reply, r2: Reply)
    ensures Failures(ReadStat(stat, addr, r0, r1, r2)) == Failures(stat) +
              if Arrived(r0) && (AnswersRead(r1, addr) || (Arrived(r1) && AnswersRead(r2, addr))) then 0 else 1
    ensures Failures(StatusStat(stat, r0, r1, r2)) == Failures(stat) + if StatusRead(r0, r1, r2) then 0 else 1
  {
    hide OutcomeOf, TxnStat, PollStat, StatusPoll, Opcode, ReplyAddr;
    PollFailure(stat, r0, addr);
    var s0 := TxnStat(stat, r0);
    PollFailure(s0, r1, addr);
    PollFailure(PollStat(s0, r1, addr), r2, addr);
    PollFailure(StatusPoll(s0, r1), r2, addr);
  }

  // A received poll reply is exactly one of: the answer, a proper NULL frame, an
  // address error, an unexpected opcode.
  lemma PollReplySorted(reply: Reply, addr: bv32)
    requires Arrived(reply)
    ensures ReadAddrErrors(reply, addr) + UnexpectedOpcode(reply, OP_RD)
            + (if AnswersRead(reply, addr) then 1 else 0)
            + (if Opcode(reply.words) == OP_NULL && !AddrMismatch(reply.words) then 1 else 0) == 1
    ensures TxnAddrErrors(reply) + UnexpectedOpcode(reply, OP_ST)
            + (if AnswersStatus(reply) then 1 else 0)
            + (if Opcode(reply.words) == OP_NULL && !AddrMismatch(reply.words) then 1 else 0) == 1
  {
    hide OutcomeOf, ReplyAddr;
    OpcodeRange(reply.words);
  }

  // ---------- which counter a received frame goes to ----------

  function One(counts: bool): int { if counts then 1 else 0 }

  // A NULL or STATUS frame without its own address.
  predicate WrongConstant(w: Frame) {
    || (w[0] >> 14 == 0 && !(w[1] == 0xDEAD && w[2] == 0xCA5E))
    || (w[0] >> 14 == 3 && !(w[1] == 0x57A7 && w[2] == 0x14F0))
  }

  predicate WrongAddress(reply: Reply) { Arrived(reply) && WrongConstant(reply.words) }

  // Such a frame, or the data of another register.
  predicate NotThisRegister(reply: Reply, addr: bv32) {
    Arrived(reply)
    && (WrongConstant(reply.words)
        || (reply.words[0] >> 14 == 2 && !(reply.words[1] == High(addr) && reply.words[2] == Low(addr))))
  }

  // A well-addressed frame that answers another kind of request.
  predicate StrayToRead(reply: Reply) {
    Arrived(reply) && !WrongConstant(reply.words) && (reply.words[0] >> 14 == 1 || reply.words[0] >> 14 == 3)
  }

  predicate StrayToStatus(reply: Reply) {
    Arrived(reply) && (reply.words[0] >> 14 == 1 || reply.words[0] >> 14 == 2)
  }

  lemma FrameErrors(stat: IoStat, reply: Reply, addr: bv32)
    ensures var t := TxnStat(stat, reply);
            && t.rxAddrErrors == stat.rxAddrErrors + One(WrongAddress(reply))
            && t.rxOpcodeErrors == stat.rxOpcodeErrors && t.rxTimeouts == stat.rxTimeouts
    ensures var t := PollStat(stat, reply, addr);
            && t.rxAddrErrors == stat.rxAddrErrors + One(NotThisRegister(reply, addr))
            && t.rxOpcodeErrors == stat.rxOpcodeErrors + One(StrayToRead(reply)) && t.rxTimeouts == stat.rxTimeouts
    ensures var t := StatusPoll(stat, reply);
            && t.rxAddrErrors == stat.rxAddrErrors + One(WrongAddress(reply))
            && t.rxOpcodeErrors == stat.rxOpcodeErrors + One(StrayToStatus(reply)) && t.rxTimeouts == stat.rxTimeouts
  {
    hide OutcomeOf, ReplyAddr, ReplyData, Join64, High, Low;
    if Arrived(reply) {
      RepliesOnWire(reply, addr);
      AddrOnWire(reply.words, addr);
      OpcodeRange(reply.words);
    }
  }

  // Over a whole read: one address error for each received frame with a wrong address,
  // one opcode error for each stray one, and a timeout exactly if two polls were
  // received without an answer.
  lemma ReadErrors(stat: IoStat, addr: bv32, r0: Reply, r1: Reply, r2: Reply)
    ensures var t := ReadStat(stat, addr, r0, r1, r2);
            var second := Arrived(r0) && Arrived(r1) && !AnswersRead(r1, addr);
            && t.rxAddrErrors == stat.rxAddrErrors + One(WrongAddress(r0))
                 + One(Arrived(r0) && NotThisRegister(r1, addr)) + One(second && NotThisRegister(r2, addr))
            && t.rxOpcodeErrors == stat.rxOpcodeErrors
                 + One(Arrived(r0) && StrayToRead(r1)) + One(second && StrayToRead(r2))
            && t.rxTimeouts == stat.rxTimeouts + One(second && Arrived(r2) && !AnswersRead(r2, addr))
  {
    hide Arrived, AnswersRead, TxnStat, PollStat, WrongAddress, NotThisRegister, StrayToRead;
    FrameErrors(stat, r0, addr);
    var s0 := TxnStat(stat, r0);
    FrameErrors(s0, r1, addr);
    FrameErrors(PollStat(s0, r1, addr), r2, addr);
  }

  lemma StatusErrors(stat: IoStat, r0: Reply, r1: Reply, r2: Reply)
    ensures var t := StatusStat(stat, r0, r1, r2);
            var second := Arrived(r0) && Arrived(r1) && !AnswersStatus(r1);
            && t.rxAddrErrors == stat.rxAddrErrors + One(WrongAddress(r0))
                 + One(Arrived(r0) && WrongAddress(r1)) + One(second && WrongAddress(r2))
            && t.rxOpcodeErrors == stat.rxOpcodeErrors
                 + One(Arrived(r0) && StrayToStatus(r1)) + One(second && StrayToStatus(r2))
            && t.rxTimeouts == stat.rxTimeouts + One(second && Arrived(r2) && !AnswersStatus(r2))
  {
    hide Arrived, AnswersStatus, TxnStat, StatusPoll, WrongAddress, StrayToStatus;
    FrameErrors(stat, r0, 0);
    var s0 := TxnStat(stat, r0);
    FrameErrors(s0, r1, 0);
    FrameErrors(StatusPoll(s0, r1), r2, 0);
  }

  lemma OpcodeRange(w: Frame)
    ensures Opcode(w) == OP_NULL || Opcode(w) == OP_WR || Opcode(w) == OP_RD || Opcode(w) == OP_ST
  {
  }
}
