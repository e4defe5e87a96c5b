/** The encoder emits, and the decoder reads, exactly the bytes of module `WireLayout`. */
module WireContract {
  import opened Results
  import opened Hosts
  import opened Primitives
  import opened Formats
  import opened Messages
  import opened FrameFormats
  import opened FrameRules
  import opened ByteIO
  import FrameWriter
  import FrameEncoder
  import DetailsCodec
  import Envelope
  import Utf8
  import CodeUnits
  import W = WireLayout

  // ----- Fields side by side ----------------------------------------------------------------------------

  lemma Chain2(a: bytes, b: bytes, k: bytes)
    ensures a + (b + k) == a + b + k
  {
  }

  lemma Chain3(a: bytes, b: bytes, c: bytes, k: bytes)
    ensures a + (b + (c + k)) == a + b + c + k
  {
    Chain2(a, b, c + k);
  }

  lemma Chain4(a: bytes, b: bytes, c: bytes, d: bytes, k: bytes)
    ensures a + (b + (c + (d + k))) == a + b + c + d + k
  {
    Chain3(a, b, c, d + k);
  }

  lemma Chain5(a: bytes, b: bytes, c: bytes, d: bytes, e: bytes, k: bytes)
    ensures a + (b + (c + (d + (e + k)))) == a + b + c + d + e + k
  {
    Chain4(a, b, c, d, e + k);
  }

  lemma Chain6(a: bytes, b: bytes, c: bytes, d: bytes, e: bytes, f: bytes, k: bytes)
    ensures a + (b + (c + (d + (e + (f + k))))) == a + b + c + d + e + f + k
  {
    Chain5(a, b, c, d, e, f + k);
  }

  lemma Chain8(a: bytes, b: bytes, c: bytes, d: bytes, e: bytes, f: bytes, g: bytes, h: bytes, k: bytes)
    ensures a + (b + (c + (d + (e + (f + (g + (h + k))))))) == a + b + c + d + e + f + g + h + k
  {
    Chain6(a, b, c, d, e, f, g + (h + k));
    Chain2(a + b + c + d + e + f, g, h + k);
    Chain2(a + b + c + d + e + f + g, h, k);
  }

  // ----- Numbers, texts, options --------------------------------------------------------------------------

  /** The number a little-endian byte sequence stands for. */
  function Value(b: bytes): nat { if b == [] then 0 else b[0] + 256 * Value(b[1..]) }

  function Pow256(w: nat): nat { if w == 0 then 1 else 256 * Pow256(w - 1) }

  /** The digits stand for the number, whenever it has that few. */
  lemma {:induction false} DigitsValue(n: nat, width: nat)
    requires n < Pow256(width)
    ensures Value(W.Digits(n, width)) == n
  {
    if width > 0 {
      assert W.Digits(n, width)[1..] == W.Digits(n / 256, width - 1);
      DigitsValue(n / 256, width - 1);
    }
  }

  function Pow2(k: nat): nat { if k == 0 then 1 else 2 * Pow2(k - 1) }

  /** The fields hold what their width can, two's complement where signed; an i64 only the safe integers. */
  lemma Limits(n: int)
    ensures IsU8(n) <==> 0 <= n < Pow256(1)
    ensures IsU16(n) <==> 0 <= n < Pow256(2)
    ensures IsU32(n) <==> 0 <= n < Pow256(4)
    ensures IsI32(n) <==> 0 - (Pow256(4) as int) <= 2 * n < Pow256(4)
    ensures IsSafe(n) <==> 0 - (Pow2(53) as int) < n < Pow2(53)
  {
    assert Pow256(1) == 256 && Pow256(2) == 65536 && Pow256(3) == 16777216 && Pow256(4) == 4294967296;
    assert Pow2(8) == 256 by { assert Pow2(4) == 16; }
    Doubled(8, 256);
    Doubled(16, 65536);
    Doubled(24, 16777216);
    Doubled(32, 4294967296);
    Doubled(40, 1099511627776);
    assert Pow2(53) == 32 * Pow2(48) by { assert Pow2(51) == 8 * Pow2(48); }
  }

  lemma Doubled(k: nat, p: nat)
    requires Pow2(k) == p
    ensures Pow2(k + 8) == 256 * p
  {
    assert Pow2(k + 1) == 2 * p && Pow2(k + 2) == 4 * p && Pow2(k + 3) == 8 * p && Pow2(k + 4) == 16 * p;
    assert Pow2(k + 5) == 32 * p && Pow2(k + 6) == 64 * p && Pow2(k + 7) == 128 * p;
  }

  lemma FourDigits(n: int)
    ensures W.Digits(n, 4) == [n % 256, n / 256 % 256, n / 65536 % 256, n / 16777216 % 256]
  {
    assert n / 256 / 256 == n / 65536 && n / 65536 / 256 == n / 16777216;
    assert W.Digits(n, 4) == [n % 256] + W.Digits(n / 256, 3);
    assert W.Digits(n / 256, 3) == [n / 256 % 256] + W.Digits(n / 65536, 2);
    assert W.Digits(n / 65536, 2) == [n / 65536 % 256] + W.Digits(n / 16777216, 1);
    assert W.Digits(n / 16777216, 1) == [n / 16777216 % 256] + W.Digits(n / 16777216 / 256, 0);
  }

  lemma U32Bytes(n: int, k: bytes)
    ensures PutU32(n, k) == W.U32(n) + k
  {
    FourDigits(n);
  }

  lemma U16Bytes(n: int, k: bytes)
    ensures PutU16(n, k) == W.Digits(n, 2) + k
  {
    assert W.Digits(n, 2) == [n % 256] + W.Digits(n / 256, 1);
    assert W.Digits(n / 256, 1) == [n / 256 % 256] + W.Digits(n / 256 / 256, 0);
  }

  lemma I32Bytes(n: int, k: bytes)
    ensures PutI32(n, k) == W.I32(n) + k
  {
    hide PutU32, W.Digits;
    U32Bytes(if n < 0 then n + 4294967296 else n, k);
  }

  lemma EightDigits(n: int)
    ensures W.Digits(n, 8) == W.Digits(n, 4) + W.Digits(n / 4294967296, 4)
  {
    assert n / 256 / 256 == n / 65536 && n / 65536 / 256 == n / 16777216 && n / 16777216 / 256 == n / 4294967296;
    FourDigits(n);
    assert W.Digits(n, 8) == [n % 256] + W.Digits(n / 256, 7);
    assert W.Digits(n / 256, 7) == [n / 256 % 256] + W.Digits(n / 65536, 6);
    assert W.Digits(n / 65536, 6) == [n / 65536 % 256] + W.Digits(n / 16777216, 5);
    assert W.Digits(n / 16777216, 5) == [n / 16777216 % 256] + W.Digits(n / 4294967296, 4);
  }

  lemma {:induction false} SameDigits(n: int, q: int, width: nat)
    ensures W.Digits(n + q * Pow256(width), width) == W.Digits(n, width)
    decreases width
  {
    if width > 0 {
      var x := q * Pow256(width - 1);
      assert q * Pow256(width) == 256 * x;
      assert (n + 256 * x) % 256 == n % 256 && (n + 256 * x) / 256 == n / 256 + x;
      SameDigits(n / 256, q, width - 1);
    }
  }

  lemma LowDigits(n: int)
    ensures W.Digits(n % 4294967296, 4) == W.Digits(n, 4)
  {
    hide W.Digits;
    assert Pow256(4) == 4294967296;
    SameDigits(n % 4294967296, n / 4294967296, 4);
  }

  lemma I64Bytes(n: int, k: bytes)
    ensures PutI64(n, k) == W.I64(n) + k
  {
    hide PutU32, W.Digits;
    var u := if n < 0 then n + 18446744073709551616 else n;
    assert u == Unsigned(n, I64_LIMIT);
    U32Bytes(u / U32_LIMIT, k);
    U32Bytes(u % U32_LIMIT, PutU32(u / U32_LIMIT, k));
    LowDigits(u);
    EightDigits(u);
  }

  lemma BoolBytes(b: bool, k: bytes)
    ensures PutBool(b, k) == W.Flag(b) + k
  {
  }

  lemma BlobBytes(b: bytes, k: bytes)
    ensures PutBytes(b, k) == W.Blob(b) + k
  {
    hide PutU32, W.Digits;
    U32Bytes(|b|, b + k);
  }

  lemma TextBytes(t: string, k: bytes)
    ensures PutStr(t, k) == W.Text(t) + k
  {
    hide PutBytes, W.Blob;
    BlobBytes(Utf8.Encode(t), k);
  }

  /** The format puts what the layout says. */
  ghost predicate Lays<T(!new)>(f: Format<T>, bytesOf: T -> bytes) {
    forall x: T, k: bytes :: Put(f, x, k) == bytesOf(x) + k
  }

  lemma ScalarsLay()
    ensures Lays(I32Format(), W.I32) && Lays(I64Format(), W.I64) && Lays(BytesFormat(), W.Blob) && Lays(StrFormat(), W.Text)
  {
    hide PutI32, PutI64, PutBytes, PutStr, W.I32, W.I64, W.Blob, W.Text;
    forall x: int, k: bytes ensures Put(I32Format(), x, k) == W.I32(x) + k { I32Bytes(x, k); }
    forall x: int, k: bytes ensures Put(I64Format(), x, k) == W.I64(x) + k { I64Bytes(x, k); }
    forall x: bytes, k: bytes ensures Put(BytesFormat(), x, k) == W.Blob(x) + k { BlobBytes(x, k); }
    forall x: string, k: bytes ensures Put(StrFormat(), x, k) == W.Text(x) + k { TextBytes(x, k); }
  }

  lemma OptBytes<T(!new)>(f: Format<T>, bytesOf: T -> bytes, o: Option<T>, k: bytes)
    requires Lays(f, bytesOf)
    ensures PutOpt(f, o, k) == W.Opt(bytesOf, o) + k
  {
    if o.Some? {
      assert Put(f, o.value, k) == bytesOf(o.value) + k;
      Chain2([1], bytesOf(o.value), k);
    }
  }

  lemma {:induction false} EachBytes<T(!new)>(f: Format<T>, bytesOf: T -> bytes, xs: seq<T>, k: bytes)
    requires Lays(f, bytesOf)
    ensures PutAll(f, xs, k) == W.Each(bytesOf, xs) + k
  {
    if xs != [] {
      EachBytes(f, bytesOf, xs[1..], k);
      assert Put(f, xs[0], PutAll(f, xs[1..], k)) == bytesOf(xs[0]) + PutAll(f, xs[1..], k);
      Chain2(bytesOf(xs[0]), W.Each(bytesOf, xs[1..]), k);
    }
  }

  lemma ListBytes<T(!new)>(f: Format<T>, bytesOf: T -> bytes, xs: seq<T>, k: bytes)
    requires Lays(f, bytesOf)
    ensures PutU32(|xs|, PutAll(f, xs, k)) == W.List(bytesOf, xs) + k
  {
    hide PutU32, PutAll, W.Each, W.U32;
    EachBytes(f, bytesOf, xs, k);
    U32Bytes(|xs|, PutAll(f, xs, k));
    Chain2(W.U32(|xs|), W.Each(bytesOf, xs), k);
  }

  // ----- Maps -----------------------------------------------------------------------------------------------

  lemma ListEntryBytes(e: (string, seq<string>), k: bytes)
    ensures Put(ListEntryFormat(), e, k) == W.Text(e.0) + W.List(W.Text, e.1) + k
  {
    hide PutStr, PutU32, PutAll, W.Text, W.List;
    ScalarsLay();
    ListBytes(StrFormat(), W.Text, e.1, k);
    TextBytes(e.0, W.List(W.Text, e.1) + k);
    Chain2(W.Text(e.0), W.List(W.Text, e.1), k);
  }

  lemma StrEntryBytes(e: (string, string), k: bytes)
    ensures Put(StrEntryFormat(), e, k) == W.Text(e.0) + W.Text(e.1) + k
  {
    hide PutStr, W.Text;
    TextBytes(e.1, k);
    TextBytes(e.0, W.Text(e.1) + k);
    Chain2(W.Text(e.0), W.Text(e.1), k);
  }

  ghost predicate LaysAt<T, U>(f: Format<T>, bytesOf: U -> bytes, x: T, u: U) {
    forall k: bytes :: Put(f, x, k) == bytesOf(u) + k
  }

  /** As `EachBytes`, where the layout is told from something else than the value put. */
  lemma {:induction false} PairedBytes<T, U>(f: Format<T>, bytesOf: U -> bytes, xs: seq<T>, us: seq<U>, k: bytes)
    requires |xs| == |us| && forall i :: 0 <= i < |xs| ==> LaysAt(f, bytesOf, xs[i], us[i])
    ensures PutAll(f, xs, k) == W.Each(bytesOf, us) + k
  {
    if xs != [] {
      forall i | 0 <= i < |xs[1..]| ensures LaysAt(f, bytesOf, xs[1..][i], us[1..][i]) { assert LaysAt(f, bytesOf, xs[i + 1], us[i + 1]); }
      PairedBytes(f, bytesOf, xs[1..], us[1..], k);
      assert LaysAt(f, bytesOf, xs[0], us[0]);
      assert Put(f, xs[0], PutAll(f, xs[1..], k)) == bytesOf(us[0]) + PutAll(f, xs[1..], k);
      Chain2(bytesOf(us[0]), W.Each(bytesOf, us[1..]), k);
    }
  }

  lemma ScopeEntryLays(m: ScopeMap, e: (string, seq<string>))
    requires e.0 in m && e.1 == m[e.0]
    ensures LaysAt(ListEntryFormat(), W.ScopeEntry(m), e, e.0)
  {
    hide ListEntryFormat, W.Text, W.List, Put;
    forall k: bytes ensures Put(ListEntryFormat(), e, k) == W.ScopeEntry(m)(e.0) + k { ListEntryBytes(e, k); }
  }

  lemma ScopesBytes(m: ScopeMap, k: bytes)
    ensures Put(StringListMap(), m, k) == W.Scopes(m) + k
  {
    hide ListEntryFormat, PutAll, PutU32, W.Each, W.U32, StringListMap, W.ScopeEntry, LaysAt, Entries;
    StringListMapPut(m, k);
    var es, ks := Entries(m), CodeUnits.Sorted(m.Keys);
    forall i | 0 <= i < |es| ensures LaysAt(ListEntryFormat(), W.ScopeEntry(m), es[i], ks[i]) { ScopeEntryLays(m, es[i]); }
    PairedBytes(ListEntryFormat(), W.ScopeEntry(m), es, ks, k);
    U32Bytes(|m|, PutAll(ListEntryFormat(), es, k));
    Chain2(W.U32(|m|), W.Each(W.ScopeEntry(m), ks), k);
  }

  lemma LabelEntryLays(m: map<string, string>, e: (string, string))
    requires e.0 in m && e.1 == m[e.0]
    ensures LaysAt(StrEntryFormat(), W.LabelEntry(m), e, e.0)
  {
    hide StrEntryFormat, W.Text, W.List, Put;
    forall k: bytes ensures Put(StrEntryFormat(), e, k) == W.LabelEntry(m)(e.0) + k { StrEntryBytes(e, k); }
  }

  lemma LabelsBytes(m: map<string, string>, k: bytes)
    ensures Put(StringMap(), m, k) == W.Labels(m) + k
  {
    hide StrEntryFormat, PutAll, PutU32, W.Each, W.U32, StringMap, W.LabelEntry, LaysAt, Entries;
    StringMapPut(m, k);
    var es, ks := Entries(m), CodeUnits.Sorted(m.Keys);
    forall i | 0 <= i < |es| ensures LaysAt(StrEntryFormat(), W.LabelEntry(m), es[i], ks[i]) { LabelEntryLays(m, es[i]); }
    PairedBytes(StrEntryFormat(), W.LabelEntry(m), es, ks, k);
    U32Bytes(|m|, PutAll(StrEntryFormat(), es, k));
    Chain2(W.U32(|m|), W.Each(W.LabelEntry(m), ks), k);
  }

  // ----- Records ----------------------------------------------------------------------------------------------

  lemma ByteBytes(b: int, k: bytes)
    ensures PutU8(b, k) == [b % 256] + k
  {
  }

  lemma OperationBytes(o: PushOperation, k: bytes)
    ensures Put(OperationFormat(), o, k) == W.Operation(o) + k
  {
    hide PutStr, PutOpt, PutU8, W.Text, W.Opt, OperationFormat;
    ScalarsLay();
    FrameWriter.OperationPut(o, k);
    var payload, base := W.Opt(W.Blob, o.payload), W.Opt(W.I64, o.baseVersion);
    OptBytes(BytesFormat(), W.Blob, o.payload, k);
    OptBytes(I64Format(), W.I64, o.baseVersion, payload + k);
    var op: bytes := [if o.op.Upsert? then 1 else 2];
    ByteBytes(OpByte(o.op), base + (payload + k));
    TextBytes(o.rowId, op + (base + (payload + k)));
    TextBytes(o.table, W.Text(o.rowId) + (op + (base + (payload + k))));
    Chain5(W.Text(o.table), W.Text(o.rowId), op, base, payload, k);
  }

  lemma ChangeBytes(n: int, c: CommitChange, k: bytes)
    ensures Put(ChangeFormat(n), c, k) == W.Change(c) + k
  {
    hide PutStr, PutOpt, PutU8, PutU16, W.Text, W.Opt, W.Labels, W.Digits, ChangeFormat, StringMap;
    ScalarsLay();
    FrameWriter.ChangePut(n, c, k);
    var row, labels, version := W.Opt(W.Blob, c.row), W.Labels(c.scopes), W.Opt(W.I64, c.rowVersion);
    OptBytes(BytesFormat(), W.Blob, c.row, k);
    LabelsBytes(c.scopes, row + k);
    OptBytes(I64Format(), W.I64, c.rowVersion, labels + (row + k));
    var op: bytes := [if c.op.Upsert? then 1 else 2];
    var tail := version + (labels + (row + k));
    ByteBytes(OpByte(c.op), tail);
    TextBytes(c.rowId, op + tail);
    U16Bytes(c.tableIndex, W.Text(c.rowId) + (op + tail));
    Chain6(W.Digits(c.tableIndex, 2), W.Text(c.rowId), op, version, labels, row, k);
  }

  lemma ResultBytes(r: OpResult, k: bytes)
    ensures Put(ResultFormat(), r, k) == W.Outcomes(r) + k
  {
    hide PutStr, PutU8, PutI32, PutI64, PutBytes, PutBool, W.Text, W.I32, W.I64, W.Blob, W.Flag, ResultFormat;
    FrameWriter.ResultPut(r, k);
    match r
    case AppliedResult(i) =>
      ByteBytes(1, k);
      I32Bytes(i, [1] + k);
      Chain2(W.I32(i), [1], k);
    case ConflictResult(i, code, message, version, row) =>
      BlobBytes(row, k);
      I64Bytes(version, W.Blob(row) + k);
      var tail := W.I64(version) + (W.Blob(row) + k);
      TextBytes(message, tail);
      TextBytes(code, W.Text(message) + tail);
      ByteBytes(2, W.Text(code) + (W.Text(message) + tail));
      I32Bytes(i, [2] + (W.Text(code) + (W.Text(message) + tail)));
      Chain6(W.I32(i), [2], W.Text(code), W.Text(message), W.I64(version), W.Blob(row), k);
    case ErrorResult(i, code, message, retryable, _) =>
      BoolBytes(retryable, k);
      var tail := W.Flag(retryable) + k;
      TextBytes(message, tail);
      TextBytes(code, W.Text(message) + tail);
      ByteBytes(3, W.Text(code) + (W.Text(message) + tail));
      I32Bytes(i, [3] + (W.Text(code) + (W.Text(message) + tail)));
      Chain5(W.I32(i), [3], W.Text(code), W.Text(message), W.Flag(retryable), k);
  }

  lemma RecordsLay()
    ensures Lays(OperationFormat(), W.Operation) && Lays(ResultFormat(), W.Outcomes)
    ensures forall n :: Lays(ChangeFormat(n), W.Change)
  {
    hide OperationFormat, ResultFormat, ChangeFormat, W.Operation, W.Outcomes, W.Change, Put;
    forall o: PushOperation, k: bytes ensures Put(OperationFormat(), o, k) == W.Operation(o) + k { OperationBytes(o, k); }
    forall r: OpResult, k: bytes ensures Put(ResultFormat(), r, k) == W.Outcomes(r) + k { ResultBytes(r, k); }
    forall n: int ensures Lays(ChangeFormat(n), W.Change) {
      forall c: CommitChange, k: bytes ensures Put(ChangeFormat(n), c, k) == W.Change(c) + k { ChangeBytes(n, c, k); }
    }
  }

  // ----- Frames -------------------------------------------------------------------------------------------------

  lemma ReqHeaderBytes(host: Host, v: int, f: Frame, k: bytes)
    requires f.ReqHeader?
    ensures FrameWriter.PutReqHeader(v, f, k) == W.Layout(host, v, f) + k
  {
    hide PutStr, PutI32, PutOpt, W.Text, W.I32, W.Opt;
    ScalarsLay();
    OptBytes(StrFormat(), W.Text, f.epoch, k);
    var tail := if v >= 2 then W.Opt(W.Text, f.epoch) + k else k;
    I32Bytes(f.schemaVersion, tail);
    TextBytes(f.clientId, W.I32(f.schemaVersion) + tail);
    Chain2(W.Text(f.clientId), W.I32(f.schemaVersion), k);
    Chain3(W.Text(f.clientId), W.I32(f.schemaVersion), W.Opt(W.Text, f.epoch), k);
  }

  lemma PushCommitBytes(host: Host, v: int, f: Frame, k: bytes)
    requires f.PushCommit?
    ensures FrameWriter.PutPushCommit(f, k) == W.Layout(host, v, f) + k
  {
    hide PutStr, PutU32, PutAll, W.Text, W.List, OperationFormat, W.Operation;
    RecordsLay();
    ListBytes(OperationFormat(), W.Operation, f.operations, k);
    TextBytes(f.commitId, W.List(W.Operation, f.operations) + k);
    Chain2(W.Text(f.commitId), W.List(W.Operation, f.operations), k);
  }

  lemma PullHeaderBytes(host: Host, v: int, f: Frame, k: bytes)
    requires f.PullHeader?
    ensures FrameWriter.PutPullHeader(f, k) == W.Layout(host, v, f) + k
  {
    hide PutI32, PutU8, W.I32;
    var accept: bytes := [f.accept % 256];
    ByteBytes(f.accept, k);
    I32Bytes(f.maxSnapshotPages, accept + k);
    I32Bytes(f.limitSnapshotRows, W.I32(f.maxSnapshotPages) + (accept + k));
    I32Bytes(f.limitCommits, W.I32(f.limitSnapshotRows) + (W.I32(f.maxSnapshotPages) + (accept + k)));
    Chain4(W.I32(f.limitCommits), W.I32(f.limitSnapshotRows), W.I32(f.maxSnapshotPages), accept, k);
  }

  lemma SubscriptionBytes(host: Host, v: int, f: Frame, k: bytes)
    requires f.Subscription?
    ensures FrameWriter.PutSubscription(f, k) == W.Layout(host, v, f) + k
  {
    hide PutStr, PutI64, PutOpt, W.Text, W.I64, W.Opt, W.Scopes, StringListMap;
    ScalarsLay();
    var state, params := W.Opt(W.Text, f.resumeState), W.Opt(W.Text, f.params);
    OptBytes(StrFormat(), W.Text, f.resumeState, k);
    I64Bytes(f.cursor, state + k);
    OptBytes(StrFormat(), W.Text, f.params, W.I64(f.cursor) + (state + k));
    var tail := params + (W.I64(f.cursor) + (state + k));
    ScopesBytes(f.scopes, tail);
    TextBytes(f.table, W.Scopes(f.scopes) + tail);
    TextBytes(f.id, W.Text(f.table) + (W.Scopes(f.scopes) + tail));
    Chain6(W.Text(f.id), W.Text(f.table), W.Scopes(f.scopes), params, W.I64(f.cursor), state, k);
  }

  lemma RespHeaderBytes(host: Host, v: int, f: Frame, k: bytes)
    requires f.RespHeader? && (v >= 2 ==> f.logEpoch.Some? && f.resetRequired.Some?)
    ensures FrameWriter.PutRespHeader(v, f, k) == W.Layout(host, v, f) + k
  {
    hide PutStr, PutOpt, PutBool, W.Text, W.Opt, W.Flag;
    ScalarsLay();
    var required, latest := W.Opt(W.I32, f.requiredSchemaVersion), W.Opt(W.I32, f.latestSchemaVersion);
    var tail := k;
    if v >= 2 {
      var epoch, reset := W.Text(f.logEpoch.value), W.Flag(f.resetRequired.value);
      BoolBytes(f.resetRequired.value, k);
      TextBytes(f.logEpoch.value, reset + k);
      tail := epoch + (reset + k);
      Chain4(required, latest, epoch, reset, k);
    }
    OptBytes(I32Format(), W.I32, f.latestSchemaVersion, tail);
    OptBytes(I32Format(), W.I32, f.requiredSchemaVersion, latest + tail);
    Chain2(required, latest, k);
  }

  lemma LeaseBytes(host: Host, v: int, f: Frame, k: bytes)
    requires f.Lease?
    ensures FrameWriter.PutLease(f, k) == W.Layout(host, v, f) + k
  {
    hide PutStr, PutI64, W.Text, W.I64;
    I64Bytes(f.expiresAtMs, k);
    TextBytes(f.leaseId, W.I64(f.expiresAtMs) + k);
    Chain2(W.Text(f.leaseId), W.I64(f.expiresAtMs), k);
  }

  lemma PushResultBytes(host: Host, v: int, f: Frame, k: bytes)
    requires f.PushResult?
    ensures FrameWriter.PutPushResult(f, k) == W.Layout(host, v, f) + k
  {
    hide PutStr, PutU8, PutOpt, PutU32, PutAll, W.Text, W.Opt, W.List, ResultFormat, W.Outcomes;
    ScalarsLay();
    RecordsLay();
    var commitSeq, results := W.Opt(W.I64, f.commitSeq), W.List(W.Outcomes, f.results);
    var status: bytes := [match f.status case Applied => 1 case Cached => 2 case Rejected => 3];
    ListBytes(ResultFormat(), W.Outcomes, f.results, k);
    OptBytes(I64Format(), W.I64, f.commitSeq, results + k);
    ByteBytes(PushStatusByte(f.status), commitSeq + (results + k));
    TextBytes(f.clientCommitId, status + (commitSeq + (results + k)));
    Chain4(W.Text(f.clientCommitId), status, commitSeq, results, k);
  }

  lemma DetailsEntryBytes(host: Host, e: DetailsEntry, k: bytes)
    ensures DetailsCodec.PutRawEntry(host, e, k) == W.Details(host)(e) + k
  {
    hide PutI32, PutStr, W.I32, W.Text;
    var text := DetailsCodec.TextOf(host, e);
    TextBytes(text, k);
    I32Bytes(e.opIndex, W.Text(text) + k);
    Chain2(W.I32(e.opIndex), W.Text(text), k);
  }

  lemma {:induction false} DetailsEntriesBytes(host: Host, es: seq<DetailsEntry>, i: nat, k: bytes)
    requires i <= |es|
    ensures |DetailsCodec.RawEntries(host, es)| == |es|
    ensures PutAll(DetailsCodec.RawEntryFormat(), DetailsCodec.RawEntries(host, es)[i..], k) == W.Each(W.Details(host), es[i..]) + k
    decreases |es| - i
  {
    hide DetailsCodec.RawEntryFormat, DetailsCodec.RawEntries, DetailsCodec.PutRawEntry, W.Details;
    DetailsCodec.RawEntriesSize(host, es);
    if i < |es| {
      DetailsEntriesBytes(host, es, i + 1, k);
      var tail := W.Each(W.Details(host), es[i + 1..]);
      DetailsCodec.RawEntryPut(host, es, i, k);
      DetailsEntryBytes(host, es[i], tail + k);
      assert es[i..][1..] == es[i + 1..];
      Chain2(W.Details(host)(es[i]), tail, k);
    }
  }

  lemma DetailsBytes(host: Host, v: int, f: Frame, k: bytes)
    requires f.PushResultDetails?
    ensures DetailsCodec.PutDetails(host, f, k) == W.Layout(host, v, f) + k
  {
    hide PutStr, PutU32, PutAll, W.Text, W.U32, W.Each, DetailsCodec.RawEntryFormat, DetailsCodec.RawEntries, W.Details;
    var n, entries := W.U32(|f.entries|), W.Each(W.Details(host), f.entries);
    DetailsEntriesBytes(host, f.entries, 0, k);
    assert f.entries[0..] == f.entries && DetailsCodec.RawEntries(host, f.entries)[0..] == DetailsCodec.RawEntries(host, f.entries);
    U32Bytes(|f.entries|, entries + k);
    TextBytes(f.detailsOf, n + (entries + k));
    Chain3(W.Text(f.detailsOf), n, entries, k);
    Chain2(W.Text(f.detailsOf), n, entries);
  }

  lemma SubStartBytes(host: Host, v: int, f: Frame, k: bytes)
    requires f.SubStart?
    ensures FrameWriter.PutSubStart(f, k) == W.Layout(host, v, f) + k
  {
    hide PutStr, PutU8, PutBool, W.Text, W.Flag, W.Scopes, StringListMap;
    var status: bytes := [match f.subStatus case Active => 1 case Revoked => 2 case Reset => 3];
    var scopes, bootstrap := W.Scopes(f.effectiveScopes), W.Flag(f.bootstrap);
    BoolBytes(f.bootstrap, k);
    ScopesBytes(f.effectiveScopes, bootstrap + k);
    TextBytes(f.reasonCode, scopes + (bootstrap + k));
    ByteBytes(SubStatusByte(f.subStatus), W.Text(f.reasonCode) + (scopes + (bootstrap + k)));
    TextBytes(f.subId, status + (W.Text(f.reasonCode) + (scopes + (bootstrap + k))));
    Chain5(W.Text(f.subId), status, W.Text(f.reasonCode), scopes, bootstrap, k);
  }

  lemma CommitBytes(host: Host, v: int, f: Frame, k: bytes)
    requires f.Commit?
    ensures FrameWriter.PutCommit(f, k) == W.Layout(host, v, f) + k
  {
    hide PutStr, PutI64, PutU32, PutAll, W.Text, W.I64, W.List, ChangeFormat, W.Change;
    ScalarsLay();
    RecordsLay();
    var tables, changes := W.List(W.Text, f.tables), W.List(W.Change, f.changes);
    ListBytes(ChangeFormat(|f.tables|), W.Change, f.changes, k);
    ListBytes(StrFormat(), W.Text, f.tables, changes + k);
    TextBytes(f.actorId, tables + (changes + k));
    var tail := W.Text(f.actorId) + (tables + (changes + k));
    I64Bytes(f.createdAtMs, tail);
    I64Bytes(f.seqNo, W.I64(f.createdAtMs) + tail);
    Chain5(W.I64(f.seqNo), W.I64(f.createdAtMs), W.Text(f.actorId), tables, changes, k);
  }

  lemma RefUrlsBytes(f: Frame, k: bytes)
    requires f.SegmentRef?
    ensures FrameWriter.PutRefUrls(f, k) == W.RefUrls(f) + k
  {
    hide PutOpt, W.Opt;
    ScalarsLay();
    var cursor, next, url, expiry := W.Opt(W.Text, f.rowCursor), W.Opt(W.Text, f.nextRowCursor), W.Opt(W.Text, f.url), W.Opt(W.I64, f.urlExpiresAtMs);
    OptBytes(I64Format(), W.I64, f.urlExpiresAtMs, k);
    OptBytes(StrFormat(), W.Text, f.url, expiry + k);
    OptBytes(StrFormat(), W.Text, f.nextRowCursor, url + (expiry + k));
    OptBytes(StrFormat(), W.Text, f.rowCursor, next + (url + (expiry + k)));
    Chain4(cursor, next, url, expiry, k);
  }

  lemma RefBytes(host: Host, v: int, f: Frame, k: bytes)
    requires f.SegmentRef?
    ensures FrameWriter.PutSegmentRef(f, k) == W.Layout(host, v, f) + k
  {
    hide PutStr, PutU8, PutI64, W.Text, W.I64, W.RefUrls, FrameWriter.PutRefUrls;
    var urls, media: bytes := W.RefUrls(f), [match f.mediaType case Rows => 1 case Sqlite => 2];
    RefUrlsBytes(f, k);
    TextBytes(f.scopeDigest, urls + k);
    var a := W.Text(f.scopeDigest) + (urls + k);
    I64Bytes(f.asOfCommitSeq, a);
    var b := W.I64(f.asOfCommitSeq) + a;
    I64Bytes(f.rowCount, b);
    var c := W.I64(f.rowCount) + b;
    I64Bytes(f.byteLength, c);
    var d := W.I64(f.byteLength) + c;
    TextBytes(f.segmentTable, d);
    var e := W.Text(f.segmentTable) + d;
    ByteBytes(MediaTypeByte(f.mediaType), e);
    TextBytes(f.segmentId, media + e);
    Chain8(W.Text(f.segmentId), media, W.Text(f.segmentTable), W.I64(f.byteLength), W.I64(f.rowCount), W.I64(f.asOfCommitSeq),
           W.Text(f.scopeDigest), urls, k);
  }

  lemma SubEndBytes(host: Host, v: int, f: Frame, k: bytes)
    requires f.SubEnd?
    ensures FrameWriter.PutSubEnd(f, k) == W.Layout(host, v, f) + k
  {
    hide PutI64, PutOpt, W.I64, W.Opt;
    ScalarsLay();
    OptBytes(StrFormat(), W.Text, f.bootstrapState, k);
    I64Bytes(f.nextCursor, W.Opt(W.Text, f.bootstrapState) + k);
    Chain2(W.I64(f.nextCursor), W.Opt(W.Text, f.bootstrapState), k);
  }

  lemma ErrorFrameBytes(host: Host, v: int, f: Frame, k: bytes)
    requires f.ErrorFrame?
    ensures FrameWriter.PutErrorFrame(f, k) == W.Layout(host, v, f) + k
  {
    hide PutStr, PutBool, PutOpt, W.Text, W.Flag, W.Opt;
    ScalarsLay();
    var details := W.Opt(W.Text, f.details);
    OptBytes(StrFormat(), W.Text, f.details, k);
    TextBytes(f.recommendedAction, details + k);
    var a := W.Text(f.recommendedAction) + (details + k);
    BoolBytes(f.retryable, a);
    var b := W.Flag(f.retryable) + a;
    TextBytes(f.category, b);
    TextBytes(f.message, W.Text(f.category) + b);
    TextBytes(f.code, W.Text(f.message) + (W.Text(f.category) + b));
    Chain6(W.Text(f.code), W.Text(f.message), W.Text(f.category), W.Flag(f.retryable), W.Text(f.recommendedAction), details, k);
  }

  /** Every frame the encoder accepts has the payload of its layout and the type of its tag. */
  lemma PayloadBytes(host: Host, v: int, f: Frame)
    requires Fits(host, v, f)
    ensures FrameEncoder.Payload(host, v, f) == W.Layout(host, v, f) && FrameType(f) == W.Tag(f)
  {
    hide FrameWriter.PutReqHeader, FrameWriter.PutPushCommit, FrameWriter.PutPullHeader, FrameWriter.PutSubscription;
    hide FrameWriter.PutRespHeader, FrameWriter.PutLease, FrameWriter.PutPushResult, DetailsCodec.PutDetails;
    hide FrameWriter.PutSubStart, FrameWriter.PutCommit, FrameWriter.PutSegmentRef, FrameWriter.PutSubEnd, FrameWriter.PutErrorFrame;
    hide FrameEncoder.Payload, Fits;
    FrameEncoder.EpochsPresent(host, v, f);
    FrameEncoder.FramePut(host, v, f);
    FrameBytes(host, v, f);
    assert W.Layout(host, v, f) + [] == W.Layout(host, v, f);
  }

  lemma FrameBytes(host: Host, v: int, f: Frame)
    requires f.RespHeader? && v >= 2 ==> f.logEpoch.Some? && f.resetRequired.Some?
    ensures FrameEncoder.PutFrame(host, v, f, []) == W.Layout(host, v, f) + []
  {
    hide FrameWriter.PutReqHeader, FrameWriter.PutPushCommit, FrameWriter.PutPullHeader, FrameWriter.PutSubscription;
    hide FrameWriter.PutRespHeader, FrameWriter.PutLease, FrameWriter.PutPushResult, DetailsCodec.PutDetails;
    hide FrameWriter.PutSubStart, FrameWriter.PutCommit, FrameWriter.PutSegmentRef, FrameWriter.PutSubEnd, FrameWriter.PutErrorFrame;
    match f
    case ReqHeader(_, _, _) => ReqHeaderBytes(host, v, f, []);
    case PushCommit(_, _) => PushCommitBytes(host, v, f, []);
    case PullHeader(_, _, _, _) => PullHeaderBytes(host, v, f, []);
    case Subscription(_, _, _, _, _, _) => SubscriptionBytes(host, v, f, []);
    case RespHeader(_, _, _, _) => RespHeaderBytes(host, v, f, []);
    case Lease(_, _) => LeaseBytes(host, v, f, []);
    case PushResult(_, _, _, _) => PushResultBytes(host, v, f, []);
    case PushResultDetails(_, _) => DetailsBytes(host, v, f, []);
    case SubStart(_, _, _, _, _) => SubStartBytes(host, v, f, []);
    case Commit(_, _, _, _, _) => CommitBytes(host, v, f, []);
    case SegmentRef(_, _, _, _, _, _, _, _, _, _, _) => RefBytes(host, v, f, []);
    case SubEnd(_, _) => SubEndBytes(host, v, f, []);
    case ErrorFrame(_, _, _, _, _, _) => ErrorFrameBytes(host, v, f, []);
    case SegmentInline(segment) =>
    case Unknown(_, payload) =>
  }

  // ----- Messages -------------------------------------------------------------------------------------------------

  lemma {:induction false} FramesBytes(host: Host, v: int, fs: seq<Frame>)
    requires forall i :: 0 <= i < |fs| ==> Fits(host, v, fs[i])
    ensures Envelope.PutFrames(host, v, fs) == W.Each(W.Record(host, v), fs) + [0, 0, 0, 0, 0]
  {
    hide FrameEncoder.Payload, W.Layout, Fits, PutBytes, W.Blob, FrameType, W.Tag, W.Digits;
    if fs == [] {
      NoFrames(host, v);
    } else {
      var payload, rest := W.Layout(host, v, fs[0]), W.Each(W.Record(host, v), fs[1..]) + [0, 0, 0, 0, 0];
      FramesBytes(host, v, fs[1..]);
      PayloadBytes(host, v, fs[0]);
      BlobBytes(payload, rest);
      ByteBytes(W.Tag(fs[0]), W.Blob(payload) + rest);
      Chain2([W.Tag(fs[0]) % 256], W.Blob(payload), rest);
      Chain2([W.Tag(fs[0]) % 256] + W.Blob(payload), W.Each(W.Record(host, v), fs[1..]), [0, 0, 0, 0, 0]);
    }
  }

  lemma NoFrames(host: Host, v: int)
    ensures Envelope.PutFrames(host, v, []) == W.Each(W.Record(host, v), []) + [0, 0, 0, 0, 0]
  {
  }

  /** `encodeMessage` emits exactly the bytes laid out for its message. */
  lemma EncodingBytes(host: Host, m: Message)
    requires Envelope.Encodable(host, m)
    ensures Envelope.Encoding(host, m) == W.MessageBytes(host, m)
  {
    hide Envelope.PutFrames, FrameEncoder.Payload, Fits, W.Each, W.Record, W.Digits, PutU8, PutU16, Envelope.Accepts;
    var frames := W.Each(W.Record(host, m.wireVersion), m.frames);
    FramesBytes(host, m.wireVersion, m.frames);
    var end: bytes := [0, 0, 0, 0, 0];
    var kind: bytes := [match m.kind case Request => 1 case Response => 2];
    ByteBytes(0, frames + end);
    ByteBytes(Envelope.KindByte(m.kind), [0] + (frames + end));
    U16Bytes(m.wireVersion, kind + ([0] + (frames + end)));
    Chain5([0x53, 0x53, 0x50, 0x32], W.Digits(m.wireVersion, 2), kind, [0], frames, end);
  }
}
