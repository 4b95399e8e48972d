/** The bytes an oracle signs (examples/don/ocr_evm_keyring.go): the hash of the report followed by the
    report context in three blocks of 32 bytes. */
module Keyring {

  newtype byte = x: int | 0 <= x < 256
  newtype uint32 = x: int | 0 <= x < 0x1_0000_0000

  type Block = b: seq<byte> | |b| == 32 witness ZeroBlock()

  function ZeroBlock(): seq<byte> {
    seq(32, _ => 0 as byte)
  }

  datatype ReportContext = ReportContext(configDigest: Block, epoch: uint32, round: byte, extraHash: Block)

  /** The number whose big-endian bytes are given. */
  function Uint32(b: seq<byte>): (v: uint32)
    requires |b| == 4
  {
    (b[0] as int * 0x100_0000 + b[1] as int * 0x1_0000 + b[2] as int * 0x100 + b[3] as int) as uint32
  }

  /** The four bytes of `v`, the highest first. */
  predicate BigEndian(v: uint32, b0: byte, b1: byte, b2: byte, b3: byte) {
    && b0 as int == v as int / 0x100_0000 && b1 as int == v as int / 0x1_0000 % 0x100
    && b2 as int == v as int / 0x100 % 0x100 && b3 as int == v as int % 0x100
  }

  /** Big-endian bytes of `v`, written into `b` from index `at`. */
  method PutUint32(b: array<byte>, at: nat, v: uint32)
    requires at + 4 <= b.Length
    modifies b
    ensures Uint32(b[at..at + 4]) == v
    ensures BigEndian(v, b[at], b[at + 1], b[at + 2], b[at + 3])
    ensures b[..at] == old(b[..at]) && b[at + 4..] == old(b[at + 4..])
  {
    var n := v as int;
    b[at] := (n / 0x100_0000) as byte;
    b[at + 1] := (n / 0x1_0000 % 0x100) as byte;
    b[at + 2] := (n / 0x100 % 0x100) as byte;
    b[at + 3] := (n % 0x100) as byte;
    Digits(n);
  }

  lemma {:induction false} Digits(n: int)
    requires 0 <= n < 0x1_0000_0000
    ensures n == n / 0x100_0000 * 0x100_0000 + n / 0x1_0000 % 0x100 * 0x1_0000 + n / 0x100 % 0x100 * 0x100 + n % 0x100
  {
    var a, b, c := n / 0x100, n / 0x100 / 0x100, n / 0x100 / 0x100 / 0x100;
    LowByte(n);
    LowByte(a);
    LowByte(b);
    NestedDivision(n);
    NestedDivision(a);
    assert n / 0x1_0000 == b && n / 0x100_0000 == a / 0x1_0000 == c by { Division24(n); }
  }

  lemma {:induction false} LowByte(n: int)
    ensures n == n / 0x100 * 0x100 + n % 0x100
  {
  }

  lemma {:induction false} NestedDivision(n: int)
    requires n >= 0
    ensures n / 0x1_0000 == n / 0x100 / 0x100
  {
  }

  lemma {:induction false} Division24(n: int)
    requires n >= 0
    ensures n / 0x100_0000 == n / 0x100 / 0x1_0000
  {
  }

  /** Different bytes are different numbers. */
  lemma {:induction false} Uint32Injective(a: seq<byte>, b: seq<byte>)
    requires |a| == |b| == 4 && Uint32(a) == Uint32(b)
    ensures a == b
  {
    assert a[0] == b[0] && a[1] == b[1] && a[2] == b[2] && a[3] == b[3];
  }

  /** Three blocks, the middle one zero up to its last five bytes. */
  predicate WellFormed(raw: seq<seq<byte>>) {
    && |raw| == 3 && |raw[0]| == |raw[1]| == |raw[2]| == 32
    && forall i :: 0 <= i < 27 ==> raw[1][i] == 0
  }

  /** Reads the context back from its blocks. */
  function Parse(raw: seq<seq<byte>>): ReportContext
    requires WellFormed(raw)
  {
    ReportContext(raw[0], Uint32(raw[1][27..31]), raw[1][31], raw[2])
  }

  /** The blocks of a context are the only ones that read back as that context. */
  lemma {:induction false} ParseIsInjective(raw: seq<seq<byte>>, raw': seq<seq<byte>>)
    requires WellFormed(raw) && WellFormed(raw') && Parse(raw) == Parse(raw')
    ensures raw == raw'
  {
    var a, b := raw[1], raw'[1];
    Uint32Injective(a[27..31], b[27..31]);
    forall i | 0 <= i < 32 ensures a[i] == b[i] {
      if 27 <= i < 31 {
        assert a[27..31][i - 27] == b[27..31][i - 27];
      }
    }
    assert a == b;
    assert raw == [raw[0], raw[1], raw[2]] && raw' == [raw'[0], raw'[1], raw'[2]];
  }

  /** Lays a context out in three blocks, from which it can be read back. */
  method RawReportContext(ctx: ReportContext) returns (raw: seq<seq<byte>>)
    ensures WellFormed(raw) && Parse(raw) == ctx
    ensures raw[0] == ctx.configDigest && raw[2] == ctx.extraHash
    ensures BigEndian(ctx.epoch, raw[1][27], raw[1][28], raw[1][29], raw[1][30]) && raw[1][31] == ctx.round
    ensures forall i :: 0 <= i < 27 ==> raw[1][i] == 0
  {
    var digest := new byte[32];
    forall i | 0 <= i < 32 { digest[i] := ctx.configDigest[i]; }
    var middle := new byte[32](_ => 0);
    PutUint32(middle, 27, ctx.epoch);
    assert forall i :: 0 <= i < 27 ==> middle[i] == middle[..27][i] == 0;
    middle[31] := ctx.round;
    assert digest[..] == ctx.configDigest;
    raw := [digest[..], middle[..], ctx.extraHash];
  }

  /** What the outer hash is applied to. */
  predicate IsPreimage(pre: seq<byte>, inner: Block, ctx: ReportContext) {
    && |pre| == 128 && pre[..32] == inner
    && var raw := [pre[32..64], pre[64..96], pre[96..128]];
       WellFormed(raw) && Parse(raw) == ctx
  }

  /** The 128 bytes by index: the report hash, the config digest, 27 zeros, the epoch with its highest byte
      first, the round, and the extra hash. */
  predicate LaidOut(pre: seq<byte>, inner: Block, ctx: ReportContext) {
    && |pre| == 128 && pre[..32] == inner && pre[32..64] == ctx.configDigest
    && (forall i :: 64 <= i < 91 ==> pre[i] == 0)
    && BigEndian(ctx.epoch, pre[91], pre[92], pre[93], pre[94]) && pre[95] == ctx.round && pre[96..128] == ctx.extraHash
  }

  lemma {:induction false} BytesOf(b0: byte, b1: byte, b2: byte, b3: byte)
    ensures BigEndian(Uint32([b0, b1, b2, b3]), b0, b1, b2, b3)
  {
    var m2 := b0 as int * 0x100 + b1 as int;
    var m1 := m2 * 0x100 + b2 as int;
    var n := m1 * 0x100 + b3 as int;
    Peel(b0 as int, b1 as int);
    Peel(m2, b2 as int);
    Peel(m1, b3 as int);
    NestedDivision(n);
    NestedDivision(m1);
    Division24(n);
    assert Uint32([b0, b1, b2, b3]) as int == n;
  }

  lemma {:induction false} Peel(m: int, d: int)
    requires 0 <= d < 0x100
    ensures (m * 0x100 + d) / 0x100 == m && (m * 0x100 + d) % 0x100 == d
  {
  }

  lemma {:induction false} EpochBytes(pre: seq<byte>)
    requires |pre| == 128
    ensures pre[64..96][27..31] == [pre[91], pre[92], pre[93], pre[94]]
  {
    var b := pre[64..96][27..31];
    assert |b| == 4 && b[0] == pre[91] && b[1] == pre[92] && b[2] == pre[93] && b[3] == pre[94];
  }

  /** What reads back as a context is laid out so, and only that. */
  lemma {:induction false} PreimageIsLaidOut(pre: seq<byte>, inner: Block, ctx: ReportContext)
    ensures IsPreimage(pre, inner, ctx) <==> LaidOut(pre, inner, ctx)
  {
    if |pre| == 128 {
      EpochBytes(pre);
      BytesOf(pre[91], pre[92], pre[93], pre[94]);
      assert forall i :: 0 <= i < 27 ==> pre[64..96][i] == pre[64 + i];
      assert forall i :: 64 <= i < 91 ==> pre[i] == pre[64..96][i - 64];
      if LaidOut(pre, inner, ctx) {
        Digits(ctx.epoch as int);
      }
    }
  }

  ghost predicate SignedBytes(hash: seq<byte> -> Block, ctx: ReportContext, report: seq<byte>, digest: Block) {
    exists pre :: IsPreimage(pre, hash(report), ctx) && digest == hash(pre)
  }

  /** The digest that is signed, for any hash to 32 bytes. */
  method ReportToSigData(hash: seq<byte> -> Block, ctx: ReportContext, report: seq<byte>) returns (digest: Block)
    ensures SignedBytes(hash, ctx, report, digest)
    ensures exists pre :: digest == hash(pre) && LaidOut(pre, hash(report), ctx)
  {
    var raw := RawReportContext(ctx);
    var sigData: seq<byte> := hash(report);
    sigData := sigData + raw[0];
    sigData := sigData + raw[1];
    sigData := sigData + raw[2];
    assert sigData[32..64] == raw[0] && sigData[64..96] == raw[1] && sigData[96..128] == raw[2];
    assert raw == [raw[0], raw[1], raw[2]];
    assert sigData[..32] == hash(report);
    assert IsPreimage(sigData, hash(report), ctx);
    assert LaidOut(sigData, hash(report), ctx);
    digest := hash(sigData);
  }

  /** The concatenation is unambiguous: it belongs to one report hash and one context, and each pair
      has one concatenation. */
  lemma {:induction false} PreimageUnique(pre: seq<byte>, inner: Block, ctx: ReportContext, pre': seq<byte>, inner': Block, ctx': ReportContext)
    requires IsPreimage(pre, inner, ctx) && IsPreimage(pre', inner', ctx')
    ensures pre == pre' <==> inner == inner' && ctx == ctx'
  {
    if inner == inner' && ctx == ctx' {
      var raw, raw' := [pre[32..64], pre[64..96], pre[96..128]], [pre'[32..64], pre'[64..96], pre'[96..128]];
      ParseIsInjective(raw, raw');
      assert raw[0] == raw'[0] && raw[1] == raw'[1] && raw[2] == raw'[2];
      assert pre == pre[..32] + raw[0] + raw[1] + raw[2];
      assert pre' == pre'[..32] + raw'[0] + raw'[1] + raw'[2];
    }
  }

  ghost predicate Collision(hash: seq<byte> -> Block, a: seq<byte>, b: seq<byte>) {
    a != b && hash(a) == hash(b)
  }

  /** The signed digest is a function of context and report, and two that agree were made from the same
      context and report unless the hash itself was made to collide, on the reports or on preimages of
      theirs. */
  lemma {:induction false} DigestBinds(hash: seq<byte> -> Block, ctx: ReportContext, report: seq<byte>, digest: Block,
                                       ctx': ReportContext, report': seq<byte>, digest': Block)
    requires SignedBytes(hash, ctx, report, digest) && SignedBytes(hash, ctx', report', digest')
    ensures ctx == ctx' && report == report' ==> digest == digest'
    ensures digest == digest' ==>
      || (ctx == ctx' && report == report')
      || Collision(hash, report, report')
      || exists pre, pre' :: IsPreimage(pre, hash(report), ctx) && IsPreimage(pre', hash(report'), ctx') && Collision(hash, pre, pre')
  {
    var pre :| IsPreimage(pre, hash(report), ctx) && digest == hash(pre);
    var pre' :| IsPreimage(pre', hash(report'), ctx') && digest' == hash(pre');
    PreimageUnique(pre, hash(report), ctx, pre', hash(report'), ctx');
  }
}
