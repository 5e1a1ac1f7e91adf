/** The control messages of rndis.c that carry an information buffer (sections 2.2.4 to 2.2.11 of
    MS-RNDIS) and the handshake of rndis_drv_init, which is made of them. */
module RndisControl {
  import opened Bytes
  import opened Options
  import opened Frame
  import opened Rndis

  const MSG_INIT := 2
  const MSG_QUERY := 4
  const MSG_SET := 5
  const COMPLETE := 0x8000_0000     // set in the type of an answer

  const INIT_SIZE := 24
  const INIT_CMPLT_SIZE := 52
  const QUERY_SIZE := 28
  const QUERY_CMPLT_SIZE := 24
  const SET_SIZE := 28

  const OID_PERMANENT_ADDRESS := 0x0101_0101
  const OID_PACKET_FILTER := 0x0001_010E
  const FILTER := 0x0F
  const FALLBACK_MAC: Mac := [0x02, 0x42, 0xAC, 0x11, 0x00, 0x01]

  // ---- What the messages say ----

  /** The information buffer of a query answer or of a set message: length in the fifth field,
      and in the sixth how far it lies after the third. */
  function Info(msg: seq<byte>): Option<seq<byte>> {
    if |msg| < QUERY_CMPLT_SIZE then None
    else
      var n, start := FieldAt(msg, 16), 8 + FieldAt(msg, 20);
      if n == 0 then Some([])
      else if start + n > |msg| then None
      else Some(msg[start..start + n])
  }

  function Least(a: nat, b: nat): nat {
    if a < b then a else b
  }

  predicate Answers(msg: seq<byte>, msgType: nat, size: nat)
    requires size >= 16
  {
    |msg| >= size && FieldAt(msg, 0) == COMPLETE + msgType && FieldAt(msg, 12) == 0
  }

  /** What a caller with room for capacity bytes should get out of an answer. */
  function Queried(msg: seq<byte>, capacity: nat): Option<seq<byte>> {
    if !Answers(msg, MSG_QUERY, QUERY_CMPLT_SIZE) then None
    else
      match Info(msg)
      case None => None
      case Some(info) => Some(info[..Least(|info|, capacity)])
  }

  // ---- rndis_parse_query_cmplt ----

  /** The bytes that the parser copies out. As for data packets, the sum that says where they
      start is a uint32_t sum. */
  function Copied(msg: seq<byte>, capacity: nat): (r: Option<seq<byte>>)
    ensures r.Some? ==> |r.value| <= capacity
  {
    if !Answers(msg, MSG_QUERY, QUERY_CMPLT_SIZE) then None
    else
      var n, start := FieldAt(msg, 16), U32(8 + FieldAt(msg, 20));
      if n == 0 then Some([])
      else if start + n > |msg| then None
      else Some(msg[start..start + Least(n, capacity)])
  }

  predicate InfoWraps(msg: seq<byte>) {
    && Answers(msg, MSG_QUERY, QUERY_CMPLT_SIZE)
    && FieldAt(msg, 20) >= TWO32 - 8
    && 0 < FieldAt(msg, 16) <= |msg| - (FieldAt(msg, 20) + 8 - TWO32)
  }

  /** The parser meets the format on every answer of less than 2^32 bytes except those whose
      offset wraps; those it accepts although their buffer lies outside them. */
  lemma QueryMeetsFormat(msg: seq<byte>, capacity: nat)
    requires |msg| < TWO32
    ensures Copied(msg, capacity) == Queried(msg, capacity) <==> !InfoWraps(msg)
    ensures InfoWraps(msg) ==> Copied(msg, capacity).Some? && Queried(msg, capacity) == None
  {
    if Answers(msg, MSG_QUERY, QUERY_CMPLT_SIZE) {
      var n, offset := FieldAt(msg, 16), FieldAt(msg, 20);
      if offset >= TWO32 - 8 {
        assert U32(8 + offset) == 8 + offset - TWO32;
      } else if 0 < n && 8 + offset + n <= |msg| {
        var info, k := msg[8 + offset..8 + offset + n], Least(n, capacity);
        assert info[..k] == msg[8 + offset..8 + offset + k];
      }
    }
  }

  /** Such an answer, of 24 bytes. */
  lemma WrappingInfo()
    ensures exists msg: seq<byte> :: |msg| == QUERY_CMPLT_SIZE && InfoWraps(msg)
  {
    hide Le32, ToLe32;
    var msg := ToLe32(COMPLETE + MSG_QUERY) + ToLe32(QUERY_CMPLT_SIZE) + ToLe32(0) + ToLe32(0)
               + ToLe32(1) + ToLe32(TWO32 - 8);
    assert msg[0..4] == ToLe32(COMPLETE + MSG_QUERY) && msg[12..16] == ToLe32(0);
    assert msg[16..20] == ToLe32(1) && msg[20..24] == ToLe32(TWO32 - 8);
    assert InfoWraps(msg);
  }

  /** The length handed back is that of what was copied, or the capacity if there was nothing to
      copy. */
  method ParseQuery(msg: seq<byte>, out: array<byte>) returns (ret: int, dataLen: nat)
    modifies out
    ensures
      match Copied(msg, out.Length)
      case Some(value) =>
        && ret == 0 && |value| <= out.Length && out[..] == Splice(old(out[..]), 0, value)
        && dataLen == if Info(msg) == Some([]) then out.Length else |value|
      case None => ret == -1 && dataLen == out.Length && out[..] == old(out[..])
  {
    hide Le32, Splice;
    dataLen := out.Length;
    if |msg| < QUERY_CMPLT_SIZE {
      return -1, dataLen;
    }
    if FieldAt(msg, 0) != COMPLETE + MSG_QUERY {
      return -1, dataLen;
    }
    if FieldAt(msg, 12) != 0 {
      return -1, dataLen;
    }
    SpliceNothing(out[..]);
    if FieldAt(msg, 16) > 0 {
      var start := U32(8 + FieldAt(msg, 20));
      if start + FieldAt(msg, 16) > |msg| {
        return -1, dataLen;
      }
      var n := FieldAt(msg, 16);
      if n > out.Length {
        n := out.Length;
      }
      Put(out, 0, msg[start..start + n]);
      dataLen := n;
    }
    return 0, dataLen;
  }

  // ---- The requests ----

  function Head(msgType: nat, total: nat, id: nat): (h: seq<byte>)
    requires msgType < TWO32 && id < TWO32
    ensures |h| == 12
  {
    ToLe32(msgType) + ToLe32(U32(total)) + ToLe32(id)
  }

  function InitMessage(id: nat): (m: seq<byte>)
    requires id < TWO32
    ensures |m| == INIT_SIZE
  {
    Head(MSG_INIT, INIT_SIZE, id) + ToLe32(1) + ToLe32(0) + ToLe32(0x8000)
  }

  function QueryMessage(oid: nat, id: nat): (m: seq<byte>)
    requires id < TWO32 && oid < TWO32
    ensures |m| == QUERY_SIZE
  {
    Head(MSG_QUERY, QUERY_SIZE, id) + ToLe32(oid) + ToLe32(0) + ToLe32(20) + Zeros(4)
  }

  function SetMessage(oid: nat, id: nat, data: seq<byte>): (m: seq<byte>)
    requires id < TWO32 && oid < TWO32
    ensures |m| == SET_SIZE + |data|
  {
    Head(MSG_SET, SET_SIZE + |data|, id) + ToLe32(oid) + ToLe32(U32(|data|)) + ToLe32(20) + Zeros(4) + data
  }

  /** A device that reads a set message by the format finds exactly the data that was given. */
  lemma SetCarriesData(oid: nat, id: nat, data: seq<byte>)
    requires id < TWO32 && oid < TWO32 && SET_SIZE + |data| < TWO32
    ensures
      var m := SetMessage(oid, id, data);
      && Info(m) == Some(data)
      && FieldAt(m, 0) == MSG_SET && FieldAt(m, 4) == |m| && FieldAt(m, 8) == id && FieldAt(m, 12) == oid
  {
    hide Le32, ToLe32;
    var m := SetMessage(oid, id, data);
    assert m[0..4] == ToLe32(MSG_SET) && m[4..8] == ToLe32(|m|) && m[8..12] == ToLe32(id);
    assert m[12..16] == ToLe32(oid) && m[16..20] == ToLe32(|data|) && m[20..24] == ToLe32(20);
    assert m[28..28 + |data|] == data;
  }

  /** The part of rndis_state_t that the handshake writes. */
  class Driver {
    var requestId: nat
    var maxTransferSize: nat
    var medium: nat
    var linkUp: bool
    const mac: array<byte>

    ghost predicate Valid()
      reads this
    {
      requestId < TWO32 && mac.Length == 6
    }

    /** The state is allocated cleared. */
    constructor ()
      ensures Valid() && fresh(mac) && mac[..] == Zeros(6) && requestId == 0 && !linkUp
    {
      requestId, maxTransferSize, medium, linkUp := 0, 0, 0, false;
      mac := new byte[6](_ => 0);
    }

    /** The three fields that every request begins with. */
    method WriteHead(buf: array<byte>, msgType: nat, total: nat, size: nat) returns (ghost done: seq<byte>)
      requires Valid() && 12 <= size <= buf.Length && msgType < TWO32 && buf != mac
      modifies buf, this`requestId
      ensures Valid() && requestId == U32(old(requestId) + 1)
      ensures done == Head(msgType, total, requestId)
      ensures buf[..] == Splice(Splice(old(buf[..]), 0, Zeros(size)), 0, done)
    {
      hide Splice, Le32, ToLe32;
      ghost var start := buf[..];
      Put(buf, 0, Zeros(size));
      ghost var cleared := buf[..];
      SpliceNothing(cleared);
      done := [];
      done := Append(buf, cleared, done, 0, ToLe32(msgType));
      done := Append(buf, cleared, done, 4, ToLe32(U32(total)));
      requestId := U32(requestId + 1);
      done := Append(buf, cleared, done, 8, ToLe32(requestId));
    }

    method BuildInit(buf: array<byte>) returns (ret: int)
      requires Valid() && buf != mac
      modifies buf, this`requestId
      ensures buf.Length < INIT_SIZE ==> ret == -1 && buf[..] == old(buf[..]) && requestId == old(requestId)
      ensures Valid() && (buf.Length >= INIT_SIZE ==> requestId == U32(old(requestId) + 1))
      ensures buf.Length >= INIT_SIZE ==> ret == INIT_SIZE && buf[..] == Splice(old(buf[..]), 0, InitMessage(requestId))
    {
      hide Splice, Le32, ToLe32;
      if buf.Length < INIT_SIZE {
        return -1;
      }
      ghost var start := buf[..];
      ghost var cleared := Splice(start, 0, Zeros(INIT_SIZE));
      ghost var done := WriteHead(buf, MSG_INIT, INIT_SIZE, INIT_SIZE);
      done := Append(buf, cleared, done, 12, ToLe32(1));
      done := Append(buf, cleared, done, 16, ToLe32(0));
      done := Append(buf, cleared, done, 20, ToLe32(0x8000));
      SpliceIntoZeros(start, INIT_SIZE, done);
      assert done + Zeros(0) == InitMessage(requestId);
      return INIT_SIZE;
    }

    method BuildQuery(buf: array<byte>, oid: nat) returns (ret: int)
      requires Valid() && oid < TWO32 && buf != mac
      modifies buf, this`requestId
      ensures buf.Length < QUERY_SIZE ==> ret == -1 && buf[..] == old(buf[..]) && requestId == old(requestId)
      ensures Valid() && (buf.Length >= QUERY_SIZE ==> requestId == U32(old(requestId) + 1))
      ensures buf.Length >= QUERY_SIZE ==>
                ret == QUERY_SIZE && buf[..] == Splice(old(buf[..]), 0, QueryMessage(oid, requestId))
    {
      hide Splice, Le32, ToLe32;
      if buf.Length < QUERY_SIZE {
        return -1;
      }
      ghost var start := buf[..];
      ghost var cleared := Splice(start, 0, Zeros(QUERY_SIZE));
      ghost var done := WriteHead(buf, MSG_QUERY, QUERY_SIZE, QUERY_SIZE);
      done := Append(buf, cleared, done, 12, ToLe32(oid));
      done := Append(buf, cleared, done, 16, ToLe32(0));
      done := Append(buf, cleared, done, 20, ToLe32(20));
      SpliceIntoZeros(start, QUERY_SIZE, done);
      assert done + Zeros(4) == QueryMessage(oid, requestId);
      return QUERY_SIZE;
    }

    /** The header is cleared and filled in before the data is copied behind it. */
    method BuildSet(buf: array<byte>, oid: nat, data: seq<byte>) returns (ret: int)
      requires Valid() && oid < TWO32 && buf != mac
      modifies buf, this`requestId
      ensures buf.Length < SET_SIZE + |data| ==> ret == -1 && buf[..] == old(buf[..]) && requestId == old(requestId)
      ensures Valid() && (buf.Length >= SET_SIZE + |data| ==> requestId == U32(old(requestId) + 1))
      ensures buf.Length >= SET_SIZE + |data| ==>
                ret == ToInt(SET_SIZE + |data|) && buf[..] == Splice(old(buf[..]), 0, SetMessage(oid, requestId, data))
    {
      hide Splice, Le32, ToLe32;
      var total := SET_SIZE + |data|;
      if buf.Length < total {
        return -1;
      }
      ghost var start := buf[..];
      ghost var cleared := Splice(start, 0, Zeros(SET_SIZE));
      ghost var done := WriteHead(buf, MSG_SET, total, SET_SIZE);
      done := Append(buf, cleared, done, 12, ToLe32(oid));
      done := Append(buf, cleared, done, 16, ToLe32(U32(|data|)));
      done := Append(buf, cleared, done, 20, ToLe32(20));
      SpliceIntoZeros(start, SET_SIZE, done);
      done := Append(buf, start, done + Zeros(4), SET_SIZE, data);
      assert done == SetMessage(oid, requestId, data);
      return ToInt(total);
    }

    /** rndis_parse_init_cmplt. */
    method ParseInit(msg: seq<byte>) returns (ret: int)
      modifies this`maxTransferSize, this`medium
      ensures ret == if Answers(msg, MSG_INIT, INIT_CMPLT_SIZE) then 0 else -1
      ensures ret == 0 ==> maxTransferSize == FieldAt(msg, 36) && medium == FieldAt(msg, 28)
      ensures ret == -1 ==> maxTransferSize == old(maxTransferSize) && medium == old(medium)
    {
      if |msg| < INIT_CMPLT_SIZE {
        return -1;
      }
      if FieldAt(msg, 0) != COMPLETE + MSG_INIT {
        return -1;
      }
      if FieldAt(msg, 12) != 0 {
        return -1;
      }
      maxTransferSize := FieldAt(msg, 36);
      medium := FieldAt(msg, 28);
      return 0;
    }

    /** Sends the first len bytes of the buffer and receives the answer into the same buffer. */
    method Exchange(buf: array<byte>, len: nat, turn: Turn) returns (sent: seq<byte>, got: int)
      requires len <= buf.Length && TurnFits(turn, buf.Length)
      modifies buf
      ensures sent == old(buf[..len])
      ensures got >= 0 <==> turn.sent && turn.answer.Some?
      ensures got >= 0 ==> got == |turn.answer.value| && buf[..got] == turn.answer.value
    {
      hide Splice;
      sent := buf[..len];
      if !turn.sent || turn.answer == None {
        return sent, -1;
      }
      ghost var before := buf[..];
      Put(buf, 0, turn.answer.value);
      SplicePrefix(before, turn.answer.value);
      return sent, |turn.answer.value|;
    }

    /** The three requests of the handshake. */
    method AskInit(buf: array<byte>, turn: Turn) returns (sent: seq<byte>, got: int)
      requires Valid() && buf != mac && buf.Length == RNDIS_BUF_SIZE && TurnFits(turn, buf.Length)
      modifies buf, this`requestId
      ensures Valid() && requestId == U32(old(requestId) + 1) && sent == InitMessage(requestId)
      ensures got >= 0 <==> Answered(turn)
      ensures got >= 0 ==> got == |turn.answer.value| && buf[..got] == turn.answer.value
    {
      hide Splice, Le32, ToLe32, InitMessage, QueryMessage, SetMessage;
      ghost var before := buf[..];
      var len := BuildInit(buf);
      SplicePrefix(before, InitMessage(requestId));
      sent, got := Exchange(buf, len, turn);
    }

    method AskAddress(buf: array<byte>, turn: Turn) returns (sent: seq<byte>, got: int)
      requires Valid() && buf != mac && buf.Length == RNDIS_BUF_SIZE && TurnFits(turn, buf.Length)
      modifies buf, this`requestId
      ensures Valid() && requestId == U32(old(requestId) + 1) && sent == QueryMessage(OID_PERMANENT_ADDRESS, requestId)
      ensures got >= 0 <==> Answered(turn)
      ensures got >= 0 ==> got == |turn.answer.value| && buf[..got] == turn.answer.value
    {
      hide Splice, Le32, ToLe32, InitMessage, QueryMessage, SetMessage;
      ghost var before := buf[..];
      var len := BuildQuery(buf, OID_PERMANENT_ADDRESS);
      SplicePrefix(before, QueryMessage(OID_PERMANENT_ADDRESS, requestId));
      sent, got := Exchange(buf, len, turn);
    }

    method AskFilter(buf: array<byte>, turn: Turn) returns (sent: seq<byte>, got: int)
      requires Valid() && buf != mac && buf.Length == RNDIS_BUF_SIZE && TurnFits(turn, buf.Length)
      modifies buf, this`requestId
      ensures Valid() && requestId == U32(old(requestId) + 1)
      ensures sent == SetMessage(OID_PACKET_FILTER, requestId, ToLe32(FILTER))
      ensures got >= 0 <==> Answered(turn)
      ensures got >= 0 ==> got == |turn.answer.value| && buf[..got] == turn.answer.value
    {
      hide Splice, Le32, ToLe32, InitMessage, QueryMessage, SetMessage;
      ghost var before := buf[..];
      var len := BuildSet(buf, OID_PACKET_FILTER, ToLe32(FILTER));
      SplicePrefix(before, SetMessage(OID_PACKET_FILTER, requestId, ToLe32(FILTER)));
      sent, got := Exchange(buf, len, turn);
    }

    /** rndis_drv_init. The trace holds the messages handed to the control endpoint. */
    method Init(turns: Turns) returns (ret: int, trace: seq<seq<byte>>)
      requires Valid()
      requires TurnFits(turns.init, RNDIS_BUF_SIZE)
      requires TurnFits(turns.query, RNDIS_BUF_SIZE) && TurnFits(turns.filter, RNDIS_BUF_SIZE)
      modifies this, mac
      ensures Valid()
      ensures ret == if Started(turns) && Answered(turns.query) && Answered(turns.filter) then 0 else -1
      ensures trace <= Script(old(requestId))
      ensures |trace| == if !Started(turns) then 1 else if !Answered(turns.query) then 2 else 3
      ensures requestId == U32(old(requestId) + |trace|)
      ensures linkUp == (old(linkUp) || ret == 0)
      ensures
        if Started(turns) then
          var answer := turns.init.answer.value;
          maxTransferSize == FieldAt(answer, 36) && medium == FieldAt(answer, 28)
        else maxTransferSize == old(maxTransferSize) && medium == old(medium)
      ensures mac[..] ==
              if Started(turns) && Answered(turns.query) then MacAfter(old(mac[..]), turns.query.answer.value)
              else old(mac[..])
    {
      hide Splice, Le32, ToLe32, InitMessage, QueryMessage, SetMessage, Copied, Answers;
      ret, trace := -1, [];
      ghost var id := requestId;
      var buf := new byte[RNDIS_BUF_SIZE];

      var sent, got := AskInit(buf, turns.init);
      trace := [sent];
      if got < 0 {
        return;
      }
      var parsed := ParseInit(buf[..got]);
      if parsed < 0 {
        return;
      }

      sent, got := AskAddress(buf, turns.query);
      trace := trace + [sent];
      if got < 0 {
        return;
      }
      TakeMac(buf[..got]);

      sent, got := AskFilter(buf, turns.filter);
      trace := trace + [sent];
      if got < 0 {
        return;
      }
      // A refused filter is only logged.
      linkUp := true;
      ret := 0;
    }

    method TakeMac(answer: seq<byte>)
      requires Valid()
      modifies mac
      ensures mac[..] == MacAfter(old(mac[..]), answer)
    {
      hide Copied;
      var parsed, _ := ParseQuery(answer, mac);
      if parsed < 0 {
        Put(mac, 0, FALLBACK_MAC);
      }
    }
  }

  /** One request of the handshake: whether it could be sent, and the answer, if one came. */
  datatype Turn = Turn(sent: bool, answer: Option<seq<byte>>)

  /** An answer is no longer than what was asked for. */
  predicate TurnFits(turn: Turn, capacity: nat) {
    turn.answer.Some? ==> |turn.answer.value| <= capacity
  }

  datatype Turns = Turns(init: Turn, query: Turn, filter: Turn)

  predicate Answered(turn: Turn) {
    turn.sent && turn.answer.Some?
  }

  /** The device accepted the initialisation. */
  predicate Started(t: Turns) {
    Answered(t.init) && Answers(t.init.answer.value, MSG_INIT, INIT_CMPLT_SIZE)
  }

  function Script(id: nat): (s: seq<seq<byte>>)
    ensures |s| == 3
  {
    [InitMessage(U32(id + 1)), QueryMessage(OID_PERMANENT_ADDRESS, U32(id + 2)),
     SetMessage(OID_PACKET_FILTER, U32(id + 3), ToLe32(FILTER))]
  }

  /** The three requests in bytes, under consecutive ids: initialise for version 1.0 and transfers of
      32 KB, query the permanent address, and set the packet filter to directed, multicast, all
      multicast and broadcast. */
  lemma ScriptBytes(id: nat)
    ensures Script(id) == [
              [2, 0, 0, 0, 24, 0, 0, 0] + ToLe32((id + 1) % 0x1_0000_0000) + [1, 0, 0, 0, 0, 0, 0, 0, 0, 0x80, 0, 0],
              [4, 0, 0, 0, 28, 0, 0, 0] + ToLe32((id + 2) % 0x1_0000_0000)
              + [1, 1, 1, 1, 0, 0, 0, 0, 20, 0, 0, 0, 0, 0, 0, 0],
              [5, 0, 0, 0, 32, 0, 0, 0] + ToLe32((id + 3) % 0x1_0000_0000)
              + [0x0E, 1, 1, 0, 4, 0, 0, 0, 20, 0, 0, 0, 0, 0, 0, 0, 15, 0, 0, 0]]
  {
    SmallWords();
    hide Le32, ToLe32;
    var a, b, c := U32(id + 1), U32(id + 2), U32(id + 3);
    assert Zeros(4) == [0, 0, 0, 0];
    assert InitMessage(a) == [2, 0, 0, 0, 24, 0, 0, 0] + ToLe32(a) + [1, 0, 0, 0, 0, 0, 0, 0, 0, 0x80, 0, 0];
    assert QueryMessage(OID_PERMANENT_ADDRESS, b)
        == [4, 0, 0, 0, 28, 0, 0, 0] + ToLe32(b) + [1, 1, 1, 1, 0, 0, 0, 0, 20, 0, 0, 0, 0, 0, 0, 0];
    assert SetMessage(OID_PACKET_FILTER, c, ToLe32(FILTER))
        == [5, 0, 0, 0, 32, 0, 0, 0] + ToLe32(c) + [0x0E, 1, 1, 0, 4, 0, 0, 0, 20, 0, 0, 0, 0, 0, 0, 0, 15, 0, 0, 0];
  }

  lemma SmallWords()
    ensures ToLe32(0) == [0, 0, 0, 0] && ToLe32(1) == [1, 0, 0, 0] && ToLe32(2) == [2, 0, 0, 0]
    ensures ToLe32(4) == [4, 0, 0, 0] && ToLe32(5) == [5, 0, 0, 0] && ToLe32(15) == [15, 0, 0, 0]
    ensures ToLe32(20) == [20, 0, 0, 0] && ToLe32(24) == [24, 0, 0, 0] && ToLe32(28) == [28, 0, 0, 0]
    ensures ToLe32(32) == [32, 0, 0, 0] && ToLe32(0x8000) == [0, 0x80, 0, 0]
    ensures ToLe32(0x0101_0101) == [1, 1, 1, 1] && ToLe32(0x0001_010E) == [0x0E, 1, 1, 0]
  {
  }

  /** The answers that are accepted, in bytes: the type of the request with the top bit set, and a
      status of success. */
  lemma AnswersBytes(msg: seq<byte>)
    ensures Answers(msg, MSG_INIT, INIT_CMPLT_SIZE) <==>
            |msg| >= 52 && msg[0..4] == [2, 0, 0, 0x80] && msg[12..16] == [0, 0, 0, 0]
    ensures Answers(msg, MSG_QUERY, QUERY_CMPLT_SIZE) <==>
            |msg| >= 24 && msg[0..4] == [4, 0, 0, 0x80] && msg[12..16] == [0, 0, 0, 0]
  {
    if |msg| >= 24 {
      WordBytes(msg[0..4]);
      WordBytes(msg[12..16]);
    }
  }

  lemma WordBytes(s: seq<byte>)
    requires |s| == 4
    ensures Le32(s) == 0x8000_0002 <==> s == [2, 0, 0, 0x80]
    ensures Le32(s) == 0x8000_0004 <==> s == [4, 0, 0, 0x80]
    ensures Le32(s) == 0 <==> s == [0, 0, 0, 0]
  {
  }

  /** The address after an answer: a short one overwrites only its own length. */
  function MacAfter(mac: seq<byte>, answer: seq<byte>): seq<byte>
    requires |mac| == 6
  {
    match Copied(answer, 6)
    case Some(value) => Splice(mac, 0, value)
    case None => FALLBACK_MAC
  }

  /** An address of six bytes from what there is of one. */
  function Padded(value: seq<byte>): (mac: seq<byte>)
    requires |value| <= 6
    ensures |mac| == 6
  {
    value + Zeros(6 - |value|)
  }

  /** On a cleared state the address is what the device answered, padded with zeros if that is
      short, or the fallback if the answer is refused; unless the offset of the answer wraps, and
      then it is what the parser found there. It is the whole of what was answered if and only if
      that is six bytes. */
  lemma MacIsTheDevices(answer: seq<byte>)
    requires |answer| < TWO32
    ensures
      match Queried(answer, 6)
      case Some(value) =>
        && |value| <= 6 && MacAfter(Zeros(6), answer) == Padded(value)
        && (MacAfter(Zeros(6), answer) == value <==> |value| == 6)
      case None =>
        MacAfter(Zeros(6), answer) ==
        match Copied(answer, 6)
        case Some(found) => Padded(found)
        case None => [0x02, 0x42, 0xAC, 0x11, 0x00, 0x01]
    ensures Queried(answer, 6) == None ==> (Copied(answer, 6).Some? <==> InfoWraps(answer))
  {
    QueryMeetsFormat(answer, 6);
  }

  /** An answer of 25 bytes, one of them information, of which five bytes of the address are not. */
  lemma ShortAnswer()
    ensures exists answer: seq<byte> ::
      |answer| == 25 && Queried(answer, 6) == Some([7]) && MacAfter(Zeros(6), answer) == [7, 0, 0, 0, 0, 0]
  {
    hide Le32, ToLe32, Splice;
    var head := ToLe32(COMPLETE + MSG_QUERY) + ToLe32(25) + ToLe32(0) + ToLe32(0) + ToLe32(1) + ToLe32(16);
    var answer := head + [7];
    assert answer[0..4] == ToLe32(COMPLETE + MSG_QUERY) && answer[12..16] == ToLe32(0);
    assert answer[16..20] == ToLe32(1) && answer[20..24] == ToLe32(16);
    assert answer[24..25] == [7];
    assert Info(answer) == Some([7]) && [7][..1] == [7];
    assert Queried(answer, 6) == Some([7]);
    MacIsTheDevices(answer);
    assert Padded([7]) == [7, 0, 0, 0, 0, 0];
  }
}
