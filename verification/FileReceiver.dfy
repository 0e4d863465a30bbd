/** HandlerReceiveFile of rkaiq/rkaiq_protocol.cpp: the file packet, its reassembly, and the
    decision to save. */
module FileReceiver {
  import opened Basics
  import opened Bytes
  import opened Murmur
  import opened Socket

  const HEADER: nat := 424
  const OVERHEAD: nat := 428
  const RKID: seq<Byte> := [83, 101, 110, 100, 70, 105, 108, 101]
  const TWO_TO_THE_64: nat := 0x1_0000_0000_0000_0000

  /** The directory and name fields are 256 and 128 bytes wide. */
  datatype File = File(commandID: U32, commandResult: U32, dirLen: U32, dir: seq<Byte>,
                       nameLen: U32, name: seq<Byte>, data: seq<Byte>)

  ghost predicate FieldsFit(f: File) {
    |f.dir| == 256 && |f.name| == 128 && OVERHEAD + |f.data| < TWO_TO_THE_64
  }

  function Front(size: nat, f: File): seq<Byte> {
    RKID + Le(size, 8) + Le(f.commandID, 4) + Le(f.commandResult, 4)
    + Le(f.dirLen, 4) + f.dir + Le(f.nameLen, 4) + f.name
  }

  /** The packet of f with `payload` in place of its data, and the hash of its data. */
  function EncodeWith(f: File, payload: seq<Byte>): seq<Byte> {
    Front(OVERHEAD + |payload|, f) + Le(|payload|, 8) + payload + Le(DataHash(f.data), 4)
  }

  function Encode(f: File): seq<Byte> {
    EncodeWith(f, f.data)
  }

  // ---------------------------------------------------------------- receiver

  /** Overrun: the program would read or copy over the end of a buffer. Directory and name are strings,
      without their terminating zeros. */
  datatype Outcome =
    | TransferError | Timeout | Overrun | DataSizeError | HashCheckFail | DirError | FileSaveError
    | Saved(dir: seq<Byte>, name: seq<Byte>, data: seq<Byte>)

  datatype FileSystem = FileSystem(dirExists: seq<Byte> -> bool, canCreate: (seq<Byte>, seq<Byte>) -> bool)

  function Save(fs: FileSystem, dir: seq<Byte>, name: seq<Byte>, data: seq<Byte>): Outcome {
    if !fs.dirExists(dir) then DirError
    else if !fs.canCreate(dir, name) then FileSaveError
    else Saved(dir, name, data)
  }

  /** What stands before the first zero. */
  function Text(s: seq<Byte>): seq<Byte>
    requires 0 in s
  {
    if s[0] == 0 then [] else [s[0]] + Text(s[1..])
  }

  /** A field without a zero runs on into those behind it, up to the data size: `dirOn` and `nameOn` are
      directory and name with all that. */
  function SaveAs(fs: FileSystem, dirOn: seq<Byte>, nameOn: seq<Byte>, data: seq<Byte>): Outcome {
    if 0 !in dirOn || 0 !in nameOn then Overrun else Save(fs, Text(dirOn), Text(nameOn), data)
  }

  /** The decision about a complete packet; `dataSize` was read when the header came in. */
  function Decide(packet: seq<Byte>, dataSize: nat, fs: FileSystem): Outcome {
    if |packet| < OVERHEAD then Overrun
    else
      var n := Field(packet, 416, 8);
      if |packet| < OVERHEAD + n then Overrun
      else if n != dataSize then DataSizeError
      else
        var data := packet[HEADER..HEADER + n];
        if DataHash(data) != Field(packet, HEADER + n, 4) then HashCheckFail
        else SaveAs(fs, packet[28..HEADER], packet[288..HEADER], data)
  }

  /** `buffer` is what the server read into: `size` fresh bytes and stale bytes behind them. */
  function OutcomeOf(buffer: seq<Byte>, size: nat, stream: seq<Byte>, fs: FileSystem): Outcome
    requires |buffer| == MAX_PACKET_SIZE && size <= |buffer|
  {
    var packetSize := Field(buffer, 8, 8);
    var dataSize := Field(buffer, 416, 8);
    if packetSize == 0 || (packetSize - dataSize) % TWO_TO_THE_64 > 500 then TransferError
    else if packetSize < size then Overrun
    else if |stream| < packetSize - size then Timeout
    else Decide(Joined(buffer, size, stream, packetSize), dataSize, fs)
  }

  function Joined(buffer: seq<Byte>, size: nat, stream: seq<Byte>, packetSize: nat): seq<Byte>
    requires size <= |buffer| && size <= packetSize && packetSize - size <= |stream|
  {
    buffer[..size] + stream[..packetSize - size]
  }

  /** A packet size passes exactly when it is not zero and at most 500 bytes above the data size, where
      the difference is taken modulo 2^64. */
  lemma SizeIsChecked(buffer: seq<Byte>, size: nat, stream: seq<Byte>, fs: FileSystem)
    requires |buffer| == MAX_PACKET_SIZE && size <= |buffer|
    ensures var packetSize, dataSize := Field(buffer, 8, 8), Field(buffer, 416, 8);
      OutcomeOf(buffer, size, stream, fs) == TransferError <==>
        packetSize == 0 || !(dataSize <= packetSize <= dataSize + 500 || packetSize + 0x1_0000_0000_0000_0000 <= dataSize + 500)
  {
    var packetSize, dataSize := Field(buffer, 8, 8), Field(buffer, 416, 8);
    Pow256Values();
    assert packetSize < TWO_TO_THE_64 && dataSize < TWO_TO_THE_64;
    hide Field, Joined;
    if packetSize < dataSize {
      assert (packetSize - dataSize) % TWO_TO_THE_64 == packetSize - dataSize + TWO_TO_THE_64;
    }
  }

  method HandlerReceiveFile(c: Connection, buffer: seq<Byte>, size: nat, fs: FileSystem, budget: nat) returns (o: Outcome)
    requires |buffer| == MAX_PACKET_SIZE && size <= |buffer|
    modifies c
    ensures var stream := old(c.incoming);
      && (o == Timeout || o == OutcomeOf(buffer, size, stream, fs))
      && (budget >= |stream| ==> o == OutcomeOf(buffer, size, stream, fs))
  {
    hide Field, Decide;
    var packetSize := Field(buffer, 8, 8);
    var dataSize := Field(buffer, 416, 8);
    if packetSize == 0 || (packetSize - dataSize) % TWO_TO_THE_64 > 500 {
      return TransferError;
    }
    if packetSize < size {
      return Overrun;
    }
    var receivedPacket := new Byte[packetSize](i => 0);
    Copy(receivedPacket, 0, buffer[..size]);
    assert receivedPacket[..size] == buffer[..size];
    var ok := Fill(c, receivedPacket, size, budget);
    if !ok {
      return Timeout;
    }
    o := DecidePacket(receivedPacket[..], dataSize, fs);
  }

  method DecidePacket(packet: seq<Byte>, dataSize: nat, fs: FileSystem) returns (o: Outcome)
    ensures o == Decide(packet, dataSize, fs)
    ensures o.Saved? ==> |packet| >= OVERHEAD + dataSize && o.data == packet[HEADER..HEADER + dataSize]
    ensures o.Saved? ==> DataHash(o.data) == Field(packet, HEADER + dataSize, 4)
  {
    if |packet| < OVERHEAD {
      return Overrun;
    }
    var n := Field(packet, 416, 8);
    if |packet| < OVERHEAD + n {
      return Overrun;
    }
    var data := packet[HEADER..HEADER + n];
    if n != dataSize {
      return DataSizeError;
    }
    var hash := MurMurHash(data, Int32(n));
    if hash != Field(packet, HEADER + n, 4) {
      return HashCheckFail;
    }
    return SaveAs(fs, packet[28..HEADER], packet[288..HEADER], data);
  }

  // ---------------------------------------------------------------- what the packet says

  lemma {:induction false} FieldsOfFront(size: nat, f: File)
    requires FieldsFit(f) && size < TWO_TO_THE_64
    ensures var e := Front(size, f);
      && |e| == 416 && Field(e, 8, 8) == size
      && e[28..416] == f.dir + Le(f.nameLen, 4) + f.name && e[288..416] == f.name && e[28..284] == f.dir
      && e[..8] == [83, 101, 110, 100, 70, 105, 108, 101]
      && Field(e, 16, 4) == f.commandID && Field(e, 20, 4) == f.commandResult && Field(e, 24, 4) == f.dirLen && Field(e, 284, 4) == f.nameLen
  {
    Pow256Values();
    FromLeOfLe(size, 8);
    FromLeOfLe(f.commandID, 4);
    FromLeOfLe(f.commandResult, 4);
    FromLeOfLe(f.dirLen, 4);
    FromLeOfLe(f.nameLen, 4);
    FrontSlices(RKID, Le(size, 8), Le(f.commandID, 4), Le(f.commandResult, 4), Le(f.dirLen, 4), f.dir, Le(f.nameLen, 4), f.name);
  }

  lemma FrontSlices(id: seq<Byte>, size: seq<Byte>, cmd: seq<Byte>, result: seq<Byte>, dirLen: seq<Byte>, dir: seq<Byte>, nameLen: seq<Byte>, name: seq<Byte>)
    requires |id| == |size| == 8 && |cmd| == |result| == |dirLen| == |nameLen| == 4 && |dir| == 256 && |name| == 128
    ensures var e := id + size + cmd + result + dirLen + dir + nameLen + name;
      |e| == 416 && e[8..16] == size && e[28..416] == dir + nameLen + name && e[288..416] == name
      && e[..8] == id && e[16..20] == cmd && e[20..24] == result && e[24..28] == dirLen && e[28..284] == dir && e[284..288] == nameLen
  {
    var e, head := id + size + cmd + result + dirLen + dir + nameLen + name, id + size + cmd + result + dirLen;
    assert e == head + (dir + nameLen + name) && |head| == 28;
    assert e[28..] == dir + nameLen + name;
  }

  lemma BackSlices(front: seq<Byte>, size: seq<Byte>, data: seq<Byte>, hash: seq<Byte>)
    requires |front| == 416 && |size| == 8 && |hash| == 4
    ensures var e := front + size + data + hash; var n := |data|;
      && e[..416] == front && e[8..16] == front[8..16]
      && e[416..424] == size && e[28..424] == front[28..416] + size && e[288..424] == front[288..416] + size
      && e[424..424 + n] == data && e[424 + n..424 + n + 4] == hash
  {
    var e, head := front + size + data + hash, front + size;
    assert e == head + (data + hash) && |head| == 424;
    assert head[28..] == front[28..] + size && head[288..] == front[288..] + size;
    assert e[28..424] == head[28..] && e[288..424] == head[288..];
  }

  function NameOn(f: File, n: nat): seq<Byte> {
    f.name + Le(n, 8)
  }

  function DirOn(f: File, n: nat): seq<Byte> {
    f.dir + Le(f.nameLen, 4) + NameOn(f, n)
  }

  lemma FrontFields(e: seq<Byte>, front: seq<Byte>)
    requires |front| == 416 <= |e| && e[..416] == front
    ensures e[..8] == front[..8] && e[28..284] == front[28..284] && e[288..416] == front[288..416]
    ensures Field(e, 16, 4) == Field(front, 16, 4) && Field(e, 20, 4) == Field(front, 20, 4)
    ensures Field(e, 24, 4) == Field(front, 24, 4) && Field(e, 284, 4) == Field(front, 284, 4)
  {
    assert e[16..20] == front[16..20] && e[20..24] == front[20..24] && e[24..28] == front[24..28] && e[284..288] == front[284..288];
  }

  lemma BackFields(front: seq<Byte>, n: nat, data: seq<Byte>, hash: U32)
    requires |front| == 416 && n < TWO_TO_THE_64
    ensures var e := front + Le(n, 8) + data + Le(hash, 4);
      && |e| == OVERHEAD + |data| && e[..416] == front && e[8..16] == front[8..16]
      && Field(e, 416, 8) == n && Field(e, HEADER + |data|, 4) == hash && e[HEADER..HEADER + |data|] == data
      && e[28..HEADER] == front[28..416] + Le(n, 8) && e[288..HEADER] == front[288..416] + Le(n, 8)
  {
    Pow256Values();
    FromLeOfLe(n, 8);
    FromLeOfLe(hash, 4);
    hide Le, FromLe;
    BackSlices(front, Le(n, 8), data, Le(hash, 4));
  }

  lemma DirOnIs(f: File, n: nat)
    ensures f.dir + Le(f.nameLen, 4) + f.name + Le(n, 8) == DirOn(f, n)
  {
  }

  lemma {:induction false} BackOfEncode(f: File, payload: seq<Byte>)
    requires FieldsFit(f) && |payload| == |f.data|
    ensures var e := EncodeWith(f, payload); var n := |payload|;
      && |e| == OVERHEAD + n && e[..416] == Front(OVERHEAD + n, f) && Field(e, 8, 8) == |e| && Field(e, 416, 8) == n
      && e[28..HEADER] == DirOn(f, n) && e[288..HEADER] == NameOn(f, n)
      && e[HEADER..HEADER + n] == payload && Field(e, HEADER + n, 4) == DataHash(f.data)
  {
    var n := |payload|;
    FieldsOfFront(OVERHEAD + n, f);
    hide Front, DataHash, Le, FromLe;
    BackFields(Front(OVERHEAD + n, f), n, payload, DataHash(f.data));
    hide DirOn;
    DirOnIs(f, n);
  }

  lemma {:induction false} FieldsOfEncode(f: File, payload: seq<Byte>)
    requires FieldsFit(f) && |payload| == |f.data|
    ensures var e := EncodeWith(f, payload); var n := |payload|;
      && |e| == OVERHEAD + n && e[..8] == [83, 101, 110, 100, 70, 105, 108, 101] && Field(e, 8, 8) == |e|
      && Field(e, 16, 4) == f.commandID && Field(e, 20, 4) == f.commandResult && Field(e, 24, 4) == f.dirLen
      && e[28..284] == f.dir && Field(e, 284, 4) == f.nameLen && e[288..416] == f.name && Field(e, 416, 8) == n
      && e[28..HEADER] == DirOn(f, n) && e[288..HEADER] == NameOn(f, n)
      && e[HEADER..HEADER + n] == payload && Field(e, HEADER + n, 4) == DataHash(f.data)
  {
    var n := |payload|;
    assert OVERHEAD + n < TWO_TO_THE_64;
    hide *;
    BackOfEncode(f, payload);
    FieldsOfFront(OVERHEAD + n, f);
    FrontFields(EncodeWith(f, payload), Front(OVERHEAD + n, f));
  }

  // ---------------------------------------------------------------- what the receiver does

  /** What the first receive brought, and what is still on its way, begin with the packet. */
  ghost predicate Arrives(e: seq<Byte>, buffer: seq<Byte>, size: nat, stream: seq<Byte>) {
    |buffer| == MAX_PACKET_SIZE && size <= |buffer| && e <= buffer[..size] + stream
  }

  /** What the handler needs to come to the right end: the two sizes, which it takes from its buffer
      before it receives the rest, and which are old bytes there when the first receive was short. */
  predicate SizesServe(buffer: seq<Byte>, size: nat, stream: seq<Byte>, n: nat)
    requires |buffer| == MAX_PACKET_SIZE
  {
    var packetSize := Field(buffer, 8, 8);
    && Field(buffer, 416, 8) == n && packetSize <= n + 500
    && OVERHEAD + n <= packetSize && size <= packetSize <= size + |stream|
  }

  lemma SameFieldInPrefix(s: seq<Byte>, e: seq<Byte>, at: nat, k: nat)
    requires e <= s && at + k <= |e|
    ensures Field(s, at, k) == Field(e, at, k) && s[at..at + k] == e[at..at + k]
  {
    assert s[at..at + k] == s[..|e|][at..at + k] == e[at..at + k];
  }

  /** The joined packet and the one sent agree as far as both go. */
  lemma JoinedAgrees(e: seq<Byte>, buffer: seq<Byte>, size: nat, stream: seq<Byte>, packetSize: nat)
    requires Arrives(e, buffer, size, stream) && size <= packetSize <= size + |stream|
    ensures |Joined(buffer, size, stream, packetSize)| == packetSize
    ensures packetSize <= |e| ==> Joined(buffer, size, stream, packetSize) == e[..packetSize]
    ensures packetSize >= |e| ==> e <= Joined(buffer, size, stream, packetSize)
  {
    var all := buffer[..size] + stream;
    assert Joined(buffer, size, stream, packetSize) == all[..packetSize];
    assert e == all[..|e|];
  }

  lemma DecideBy(packet: seq<Byte>, n: nat, dirOn: seq<Byte>, nameOn: seq<Byte>, data: seq<Byte>, hash: nat, dataSize: nat, fs: FileSystem)
    requires |packet| >= OVERHEAD + n && Field(packet, 416, 8) == n
    requires packet[28..HEADER] == dirOn && packet[288..HEADER] == nameOn
    requires packet[HEADER..HEADER + n] == data && Field(packet, HEADER + n, 4) == hash
    ensures Decide(packet, dataSize, fs) ==
      if dataSize != n then DataSizeError
      else if DataHash(data) != hash then HashCheckFail
      else SaveAs(fs, dirOn, nameOn, data)
  {
    hide Field, DataHash, SaveAs;
  }

  /** A packet that reaches at least to the end of the one sent is judged by the data of that. */
  lemma DecideOfPrefix(f: File, payload: seq<Byte>, packet: seq<Byte>, dataSize: nat, fs: FileSystem)
    requires FieldsFit(f) && |payload| == |f.data| && EncodeWith(f, payload) <= packet
    ensures Decide(packet, dataSize, fs) ==
      if dataSize != |payload| then DataSizeError
      else if DataHash(payload) != DataHash(f.data) then HashCheckFail
      else SaveAs(fs, DirOn(f, |payload|), NameOn(f, |payload|), payload)
  {
    FieldsOfEncode(f, payload);
    var e, n := EncodeWith(f, payload), |payload|;
    hide *;
    SameFieldInPrefix(packet, e, 416, 8);
    SameFieldInPrefix(packet, e, HEADER + n, 4);
    SameFieldInPrefix(packet, e, HEADER, n);
    SameFieldInPrefix(packet, e, 28, 396);
    SameFieldInPrefix(packet, e, 288, 136);
    DecideBy(packet, n, DirOn(f, n), NameOn(f, n), payload, DataHash(f.data), dataSize, fs);
  }

  /** A shorter one runs over its end, or has no data size at all. */
  lemma DecideOfCut(f: File, payload: seq<Byte>, packetSize: nat, dataSize: nat, fs: FileSystem)
    requires FieldsFit(f) && |payload| == |f.data| && packetSize < |EncodeWith(f, payload)|
    ensures Decide(EncodeWith(f, payload)[..packetSize], dataSize, fs) == Overrun
  {
    FieldsOfEncode(f, payload);
    var e := EncodeWith(f, payload);
    hide EncodeWith, Field, DataHash, SaveAs;
    if packetSize >= OVERHEAD {
      assert e[..packetSize][416..424] == e[416..424];
      SameFieldInPrefix(e, e[..packetSize], 416, 8);
    }
  }

  /** The directory and name that the program makes of the fields. */
  predicate PathIs(f: File, n: nat, dir: seq<Byte>, name: seq<Byte>) {
    0 in DirOn(f, n) && 0 in NameOn(f, n) && dir == Text(DirOn(f, n)) && name == Text(NameOn(f, n))
  }

  /** The file with this directory and name can be made. */
  predicate CanSave(fs: FileSystem, f: File, n: nat) {
    && 0 in DirOn(f, n) && 0 in NameOn(f, n)
    && fs.dirExists(Text(DirOn(f, n))) && fs.canCreate(Text(DirOn(f, n)), Text(NameOn(f, n)))
  }

  lemma SaveAsExactly(fs: FileSystem, f: File, data: seq<Byte>)
    ensures var n := |data|; var o := SaveAs(fs, DirOn(f, n), NameOn(f, n), data);
      && (o.Saved? <==> CanSave(fs, f, n))
      && (o.Saved? ==> o.data == data && PathIs(f, n, o.dir, o.name))
  {
    hide Text, DirOn, NameOn;
  }

  lemma {:induction false} ZeroInside(field: seq<Byte>, behind: seq<Byte>)
    ensures 0 in field ==> Text(field + behind) == Text(field) && |Text(field)| < |field|
    ensures 0 !in field && 0 in behind ==> |Text(field + behind)| >= |field|
    decreases |field|
  {
    if field != [] {
      assert (field + behind)[1..] == field[1..] + behind;
      assert field == [field[0]] + field[1..];
      ZeroInside(field[1..], behind);
    }
  }

  /** Directory and name are what their own fields say exactly when both fields hold a zero. */
  lemma PathIsItsFieldsExactly(f: File, n: nat)
    requires FieldsFit(f)
    ensures (exists dir, name :: PathIs(f, n, dir, name) && |dir| < 256 && |name| < 128) <==> 0 in f.dir && 0 in f.name
    ensures 0 in f.dir && 0 in f.name ==> PathIs(f, n, Text(f.dir), Text(f.name))
  {
    var behind := Le(f.nameLen, 4) + NameOn(f, n);
    assert f.dir + behind == DirOn(f, n);
    ZeroInside(f.dir, behind);
    ZeroInside(f.name, Le(n, 8));
    hide Text;
    if 0 in f.dir && 0 in f.name {
      assert PathIs(f, n, Text(f.dir), Text(f.name));
    }
  }

  /** The sizes in the buffer let the packet be joined. */
  predicate IsJoined(packetSize: nat, dataSize: nat, size: nat, more: nat) {
    0 < packetSize && size <= packetSize <= size + more && (packetSize - dataSize) % TWO_TO_THE_64 <= 500
  }

  lemma OutcomeBySizes(buffer: seq<Byte>, size: nat, stream: seq<Byte>, fs: FileSystem)
    requires |buffer| == MAX_PACKET_SIZE && size <= |buffer|
    ensures var packetSize, dataSize, o := Field(buffer, 8, 8), Field(buffer, 416, 8), OutcomeOf(buffer, size, stream, fs);
      if IsJoined(packetSize, dataSize, size, |stream|) then o == Decide(Joined(buffer, size, stream, packetSize), dataSize, fs)
      else !o.Saved?
  {
    hide Field, Decide, Joined;
  }

  /** What is decided about the joined packet. */
  lemma DecideOfJoined(f: File, payload: seq<Byte>, buffer: seq<Byte>, size: nat, stream: seq<Byte>, packetSize: nat, dataSize: nat, fs: FileSystem)
    requires FieldsFit(f) && |payload| == |f.data| && Arrives(EncodeWith(f, payload), buffer, size, stream)
    requires size <= packetSize <= size + |stream|
    ensures var o := Decide(Joined(buffer, size, stream, packetSize), dataSize, fs);
      && (o.Saved? ==> o.data == payload && PathIs(f, |payload|, o.dir, o.name))
      && (o.Saved? <==> packetSize >= OVERHEAD + |payload| && dataSize == |payload| && DataHash(payload) == DataHash(f.data)
                        && CanSave(fs, f, |payload|))
  {
    var e := EncodeWith(f, payload);
    FieldsOfEncode(f, payload);
    JoinedAgrees(e, buffer, size, stream, packetSize);
    if packetSize >= |e| {
      DecideOfPrefix(f, payload, Joined(buffer, size, stream, packetSize), dataSize, fs);
      hide *;
      SaveAsExactly(fs, f, payload);
    } else {
      DecideOfCut(f, payload, packetSize, dataSize, fs);
    }
  }

  /** However the packet was cut, and whatever the buffer held before: it is saved exactly when the
      sizes found in the buffer serve, the hash is that of the data, and the file can be made. */
  lemma {:induction false} SavedExactly(f: File, payload: seq<Byte>, buffer: seq<Byte>, size: nat, stream: seq<Byte>, fs: FileSystem)
    requires FieldsFit(f) && |payload| == |f.data| && Arrives(EncodeWith(f, payload), buffer, size, stream)
    ensures var o := OutcomeOf(buffer, size, stream, fs);
      && (o.Saved? ==> o.data == payload && PathIs(f, |payload|, o.dir, o.name))
      && (o.Saved? <==> SizesServe(buffer, size, stream, |payload|) && DataHash(payload) == DataHash(f.data)
                        && CanSave(fs, f, |payload|))
  {
    var n, packetSize, dataSize := |payload|, Field(buffer, 8, 8), Field(buffer, 416, 8);
    OutcomeBySizes(buffer, size, stream, fs);
    Difference(packetSize, dataSize);
    hide EncodeWith, Field, DataHash, Joined, Decide, Arrives, OutcomeOf, CanSave, PathIs, FieldsFit;
    if size <= packetSize <= size + |stream| {
      DecideOfJoined(f, payload, buffer, size, stream, packetSize, dataSize, fs);
    }
  }

  /** The unsigned difference that the handler tests. */
  lemma Difference(packetSize: nat, dataSize: nat)
    requires packetSize < TWO_TO_THE_64 && dataSize < TWO_TO_THE_64
    ensures packetSize >= dataSize ==> (packetSize - dataSize) % TWO_TO_THE_64 == packetSize - dataSize
  {
  }

  // ---------------------------------------------------------------- with the whole header

  lemma WholeHeaderServes(f: File, payload: seq<Byte>, buffer: seq<Byte>, size: nat, stream: seq<Byte>)
    requires FieldsFit(f) && |payload| == |f.data| && Arrives(EncodeWith(f, payload), buffer, size, stream)
    requires HEADER <= size <= |EncodeWith(f, payload)|
    ensures SizesServe(buffer, size, stream, |payload|)
  {
    FieldsOfEncode(f, payload);
    var e, all := EncodeWith(f, payload), buffer[..size] + stream;
    hide EncodeWith, Field, DataHash;
    assert e == all[..|e|];
    var front := e[..HEADER];
    assert front == all[..HEADER] == buffer[..HEADER];
    SameFieldInPrefix(e, front, 8, 8);
    SameFieldInPrefix(e, front, 416, 8);
    SameFieldInPrefix(buffer, front, 8, 8);
    SameFieldInPrefix(buffer, front, 416, 8);
  }

  /** The fields hold strings, and the file can be made. */
  ghost predicate IsSavable(f: File, fs: FileSystem) {
    && FieldsFit(f) && 0 in f.dir && 0 in f.name
    && fs.dirExists(Text(f.dir)) && fs.canCreate(Text(f.dir), Text(f.name))
  }

  /** What becomes of a packet, damaged or not, whose fields all came with the first receive: the hash
      is compared first, then the directory has to exist, then the file has to be made. */
  lemma {:induction false} WholeHeaderOutcome(f: File, payload: seq<Byte>, buffer: seq<Byte>, size: nat, stream: seq<Byte>, fs: FileSystem)
    requires FieldsFit(f) && 0 in f.dir && 0 in f.name && |payload| == |f.data|
    requires Arrives(EncodeWith(f, payload), buffer, size, stream) && HEADER <= size <= |EncodeWith(f, payload)|
    ensures OutcomeOf(buffer, size, stream, fs) ==
      if DataHash(payload) != DataHash(f.data) then HashCheckFail
      else if !fs.dirExists(Text(f.dir)) then DirError
      else if !fs.canCreate(Text(f.dir), Text(f.name)) then FileSaveError
      else Saved(Text(f.dir), Text(f.name), payload)
  {
    var e, n, packetSize := EncodeWith(f, payload), |payload|, Field(buffer, 8, 8);
    WholeHeaderServes(f, payload, buffer, size, stream);
    OutcomeBySizes(buffer, size, stream, fs);
    Difference(packetSize, n);
    JoinedAgrees(e, buffer, size, stream, packetSize);
    FieldsOfEncode(f, payload);
    PathIsItsFieldsExactly(f, n);
    hide Field, DataHash, Joined, Decide, Arrives, OutcomeOf, EncodeWith, Text;
    DecideOfPrefix(f, payload, Joined(buffer, size, stream, packetSize), n, fs);
  }

  /** An undamaged file whose fields all came with the first receive is saved, in whatever pieces
      the rest arrives. */
  lemma {:induction false} FileIsSaved(f: File, buffer: seq<Byte>, size: nat, stream: seq<Byte>, fs: FileSystem)
    requires IsSavable(f, fs) && Arrives(Encode(f), buffer, size, stream) && HEADER <= size <= |Encode(f)|
    ensures OutcomeOf(buffer, size, stream, fs) == Saved(Text(f.dir), Text(f.name), f.data)
  {
    PathIsItsFieldsExactly(f, |f.data|);
    SavedExactly(f, f.data, buffer, size, stream, fs);
    WholeHeaderServes(f, f.data, buffer, size, stream);
  }

  /** A payload damaged within one aligned word, or within its tail, is never saved, however it arrives. */
  lemma {:induction false} DamageIsSeen(f: File, payload: seq<Byte>, buffer: seq<Byte>, size: nat, stream: seq<Byte>, fs: FileSystem)
    requires FieldsFit(f) && OneWordApart(f.data, payload) && |f.data| < 0x8000_0000
    requires Arrives(EncodeWith(f, payload), buffer, size, stream)
    ensures !OutcomeOf(buffer, size, stream, fs).Saved?
  {
    HashDetectsWordError(f.data, payload);
    SavedExactly(f, payload, buffer, size, stream, fs);
  }

  ghost predicate ArrivesWell(f: File, payload: seq<Byte>, buffer: seq<Byte>, size: nat, stream: seq<Byte>) {
    Arrives(EncodeWith(f, payload), buffer, size, stream) && SizesServe(buffer, size, stream, |payload|)
  }

  /** From 2^31 bytes on some damage goes through and the damaged file is saved, whenever the sizes serve. */
  lemma {:induction false} DamageIsMissed(n: nat, like: File, fs: FileSystem) returns (f: File, payload: seq<Byte>)
    requires n >= 0x8000_0000 && OVERHEAD + n < TWO_TO_THE_64 && IsSavable(like, fs)
    ensures f == like.(data := f.data) && FieldsFit(f) && |f.data| == n && OneWordApart(f.data, payload)
    ensures forall buffer, size, stream :: ArrivesWell(f, payload, buffer, size, stream) ==>
      OutcomeOf(buffer, size, stream, fs) == Saved(Text(f.dir), Text(f.name), payload)
  {
    var data, damaged := HashMissesWordError(n);
    f, payload := like.(data := data), damaged;
    PathIsItsFieldsExactly(f, n);
    forall buffer, size, stream | ArrivesWell(f, payload, buffer, size, stream)
      ensures OutcomeOf(buffer, size, stream, fs) == Saved(Text(f.dir), Text(f.name), payload)
    {
      SavedExactly(f, payload, buffer, size, stream, fs);
    }
  }
}
