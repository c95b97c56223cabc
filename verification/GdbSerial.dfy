/** The sender of kernel/gdb_serial.c, and the two decoders it uses on what it receives. */
module GdbSerial {
  import opened Arith
  import opened GdbCodec
  import opened Wrappers

  /** `struct outfrag`: with length 0 the data ends at its first NUL. */
  datatype Fragment = Fragment(data: seq<byte>, len: nat, hexify: bool)

  predicate Readable(f: Fragment) {
    if f.len > 0 then f.len <= |f.data| else 0 in f.data
  }

  function UntilNul(s: seq<byte>): (c: seq<byte>)
    requires 0 in s
    ensures |c| < |s| && c == s[..|c|] && s[|c|] == 0 && 0 !in c
  {
    if s[0] == 0 then [] else [s[0]] + UntilNul(s[1..])
  }

  function Content(f: Fragment): (c: seq<byte>)
    requires Readable(f)
    ensures |c| <= |f.data| && c == f.data[..|c|]
  {
    if f.len > 0 then f.data[..f.len] else UntilNul(f.data)
  }

  /** What goes out is the encoding of just `len` bytes, except that a length of 0 sends up to the first NUL. */
  lemma SentLength(f: Fragment)
    requires Readable(f)
    ensures Emit(Tokens(Content(f), f.hexify)) == Emit(Tokens(f.data[..f.len], f.hexify)) <==> f.len > 0 || f.data[0] == 0
  {
    EmitNothing(f.hexify);
    if f.len == 0 {
      assert f.data[..0] == [];
      if f.data[0] == 0 {
        assert Content(f) == [];
      } else {
        assert Content(f)[0] == f.data[0];
        SomethingSent(Content(f), f.hexify);
      }
    }
  }

  lemma SomethingSent(c: seq<byte>, hexify: bool)
    requires c != []
    ensures Emit(Tokens(c, hexify)) != []
  {
    StartsWith(Tokens(c, hexify));
  }

  /** The tokens and the text of a whole packet. */
  function AllTokens(frags: seq<Fragment>): (ts: seq<Token>)
    requires forall f :: f in frags ==> Readable(f)
    ensures AllPrintable(ts)
  {
    if frags == [] then []
    else AllTokens(frags[..|frags| - 1]) + Tokens(Content(frags[|frags| - 1]), frags[|frags| - 1].hexify)
  }

  function Text(frags: seq<Fragment>): seq<byte>
    requires forall f :: f in frags ==> Readable(f)
  {
    if frags == [] then []
    else Text(frags[..|frags| - 1]) + TextOf(Content(frags[|frags| - 1]), frags[|frags| - 1].hexify)
  }

  lemma {:induction false} ExpandAll(frags: seq<Fragment>)
    requires forall f :: f in frags ==> Readable(f)
    ensures Expand(AllTokens(frags)) == Text(frags)
  {
    if frags != [] {
      var before, f := frags[..|frags| - 1], frags[|frags| - 1];
      ExpandAll(before);
      ExpandTokens(Content(f), f.hexify);
      ExpandAppend(AllTokens(before), Tokens(Content(f), f.hexify));
    }
  }

  /** The debugger gets the text back exactly when no `#`, `$` or `*` is in it. */
  lemma PacketReceived(frags: seq<Fragment>)
    requires forall f :: f in frags ==> Readable(f)
    ensures Receive(Packet(AllTokens(frags))) == Some(Text(frags)) <==> forall c :: c in Text(frags) ==> Clean(c)
  {
    ExpandAll(frags);
    PacketRoundTrip(AllTokens(frags));
  }

  /** The plain text "a*b" is not received as sent. */
  lemma StarIsLost()
    ensures var frags := [Fragment([97, 42, 98], 3, false)];
            && (forall f :: f in frags ==> Readable(f)) && Text(frags) == [97, 42, 98]
            && Receive(Packet(AllTokens(frags))) != Some(Text(frags))
  {
    var frags := [Fragment([97, 42, 98], 3, false)];
    assert Text(frags[..0]) == [];
    assert Text(frags)[1] == STAR && STAR in Text(frags);
    PacketReceived(frags);
  }

  function AllContent(frags: seq<Fragment>): seq<byte>
    requires forall f :: f in frags ==> Readable(f)
  {
    if frags == [] then [] else AllContent(frags[..|frags| - 1]) + Content(frags[|frags| - 1])
  }

  lemma {:induction false} HexAppend(a: seq<byte>, b: seq<byte>)
    ensures HexText(a + b) == HexText(a) + HexText(b)
  {
    if a == [] {
      assert a + b == b;
    } else {
      assert (a + b)[1..] == a[1..] + b;
      HexAppend(a[1..], b);
    }
  }

  lemma {:induction false} HexTextClean(b: seq<byte>)
    ensures forall c :: c in HexText(b) ==> Clean(c)
  {
    if b != [] {
      HexTextClean(b[1..]);
    }
  }

  lemma {:induction false} HexTextAll(frags: seq<Fragment>)
    requires forall f :: f in frags ==> Readable(f) && f.hexify
    ensures Text(frags) == HexText(AllContent(frags))
  {
    if frags != [] {
      HexTextAll(frags[..|frags| - 1]);
      HexAppend(AllContent(frags[..|frags| - 1]), Content(frags[|frags| - 1]));
    }
  }

  /** A text was received, and its digits give the bytes b. */
  ghost predicate Carries(received: Option<seq<byte>>, b: seq<byte>) {
    && received.Some? && AllHex(received.value) && |received.value| % 2 == 0
    && FromHex(received.value) == b
  }

  /** Hexified fragments come back to the byte. */
  lemma HexPacketReceived(frags: seq<Fragment>)
    requires forall f :: f in frags ==> Readable(f) && f.hexify
    ensures Carries(Receive(Packet(AllTokens(frags))), AllContent(frags))
  {
    hide Receive, Packet, HexText, FromHex, AllTokens, Text, AllContent, AllHex;
    var b := AllContent(frags);
    HexTextAll(frags);
    HexTextClean(b);
    HexRoundTrip(b);
    PacketReceived(frags);
  }

  // ---------------------------------------------------------------- the sender

  function Times(p: seq<byte>, n: nat): seq<byte> { if n == 0 then [] else Times(p, n - 1) + p }

  predicate Acked(reply: byte) { reply % 128 == 43 }   // '+'

  ghost predicate WillAck(replies: seq<byte>) { exists i :: 0 <= i < |replies| && Acked(replies[i]) }

  /** The number of packets sent before one is acknowledged. */
  function Tries(replies: seq<byte>): (n: nat)
    requires WillAck(replies)
    ensures 1 <= n <= |replies| && Acked(replies[n - 1]) && forall i :: 0 <= i < n - 1 ==> !Acked(replies[i])
  {
    if Acked(replies[0]) then 1
    else
      assert WillAck(replies[1..]) by {
        var i :| 0 <= i < |replies| && Acked(replies[i]);
        assert replies[1..][i - 1] == replies[i];
      }
      1 + Tries(replies[1..])
  }

  /** Where the test of `putfrags` finds a run at p. */
  predicate StartsRun(c: seq<byte>, p: nat, hexify: bool)
    requires p < |c|
  {
    if hexify then RunLength(c[p..], 49) >= 2 && Doubled(c[p]) else RunLength(c[p..], 98) >= 4
  }

  lemma RunIs(c: seq<byte>, p: nat, max: nat, n: nat)
    requires p < |c| && 0 < max && 1 <= n <= |c| - p && n <= max && forall k :: p <= k < p + n ==> c[k] == c[p]
    ensures RunLength(c[p..], max) >= n
    ensures n == max || p + n == |c| || c[p + n] != c[p] ==> RunLength(c[p..], max) == n
  {
    var d := c[p..];
    RunMaximal(d, max);
    assert forall k :: 0 <= k < |d| ==> d[k] == c[p + k];
    hide RunLength;
  }

  lemma RunAtLeast(c: seq<byte>, p: nat, max: nat, n: nat)
    requires p < |c| && 1 <= n <= max
    ensures RunLength(c[p..], max) >= n <==> p + n <= |c| && forall k :: p <= k < p + n ==> c[k] == c[p]
  {
    var d, r := c[p..], RunLength(c[p..], max);
    assert forall k :: p <= k < |c| ==> d[k - p] == c[k];
    if p + n <= |c| && forall k :: p <= k < p + n ==> c[k] == c[p] {
      RunIs(c, p, max, n);
    }
    hide RunLength;
  }

  lemma {:induction false} RunMaximal(c: seq<byte>, max: nat)
    requires c != [] && max > 0
    ensures var n := RunLength(c, max); n == |c| || n == max || c[n] != c[0]
  {
    if |c| > 1 && max > 1 && c[1] == c[0] {
      RunMaximal(c[1..], max - 1);
    }
  }

  /** The tokens from p on: the first, and those from the byte after what it stands for. */
  lemma NextTokens(c: seq<byte>, p: nat, hexify: bool)
    requires p < |c|
    ensures var n, ts := RunLength(c[p..], if hexify then 49 else 98), Tokens(c[p..], hexify);
            if StartsRun(c, p, hexify) then
              var t := if hexify then Run(HexDigit(c[p] % 16), n * 2) else Run(c[p], n);
              Printable(t) && ts == [t] + Tokens(c[p + n..], hexify)
            else if hexify then
              ts == [One(HexDigit(c[p] / 16)), One(HexDigit(c[p] % 16))] + Tokens(c[p + 1..], hexify)
            else
              ts == [One(c[p])] + Tokens(c[p + 1..], hexify)
  {
    var d := c[p..];
    var n := RunLength(d, if hexify then 49 else 98);
    assert d[n..] == c[p + n..] && d[1..] == c[p + 1..];
    hide RunLength, HexDigit;
  }

  /** The serial line: what went out, and what the debugger will answer. */
  class Link {
    var sent: seq<byte>
    var replies: seq<byte>

    constructor (replies: seq<byte>)
      ensures sent == [] && this.replies == replies
    {
      sent, this.replies := [], replies;
    }

    method Send(ch: byte)
      modifies this`sent
      ensures sent == old(sent) + [ch]
    {
      sent := sent + [ch];
    }

    method Recv() returns (ch: byte)
      requires replies != []
      modifies this`replies
      ensures ch == old(replies)[0] && replies == old(replies)[1..]
    {
      ch := replies[0];
      replies := replies[1..];
    }

    /** The macro `SEND`. */
    method SendSummed(ch: byte, checksum: byte, ghost done: seq<byte>) returns (checksum': byte)
      requires checksum == Sum(done) % 256
      modifies this`sent
      ensures sent == old(sent) + [ch] && checksum' == Sum(done + [ch]) % 256
    {
      Send(ch);
      ModPlus(Sum(done), ch, 256);
      assert (done + [ch])[..|done|] == done;
      checksum' := (checksum + ch) % 256;
    }

    /** The condition of the run: no byte past the end of the fragment is read. */
    method TestRun(f: Fragment, p: nat) returns (b: bool)
      requires Readable(f) && p < |Content(f)|
      ensures b == StartsRun(Content(f), p, f.hexify)
    {
      ghost var c := Content(f);
      RunAtLeast(c, p, if f.hexify then 49 else 98, if f.hexify then 2 else 4);
      b := f.len == 0 || p + (if f.hexify then 1 else 3) < f.len;
      if b {
        b := f.data[p + 1] == f.data[p];
      }
      if b {
        if f.hexify {
          b := Doubled(f.data[p]);
        } else {
          b := f.data[p + 2] == f.data[p];
          if b {
            b := f.data[p + 3] == f.data[p];
          }
        }
      }
    }

    /** The loop that looks for the end of the run. */
    method RunEnd(f: Fragment, p: nat) returns (q: nat)
      requires Readable(f) && p < |Content(f)| && StartsRun(Content(f), p, f.hexify)
      ensures q == p + RunLength(Content(f)[p..], if f.hexify then 49 else 98)
    {
      ghost var c := Content(f);
      var limit;
      if f.hexify {
        q, limit := p + 2, p + 49;
      } else {
        q, limit := p + 4, p + 98;
      }
      if f.len > 0 && limit > f.len {
        limit := f.len;
      }
      while q < limit && f.data[q] == f.data[p]
        invariant q <= limit && q <= |c| && forall k :: p <= k < q ==> c[k] == c[p]
      {
        q := q + 1;
      }
      RunIs(c, p, if f.hexify then 49 else 98, q - p);
    }

    method SendRun(ch: byte, rl: nat, checksum: byte, ghost done: seq<byte>) returns (checksum': byte)
      requires Printable(Run(ch, rl)) && checksum == Sum(done) % 256
      modifies this`sent
      ensures sent == old(sent) + Bytes(Run(ch, rl)) && checksum' == Sum(done + Bytes(Run(ch, rl))) % 256
    {
      hide Sum;
      checksum' := SendSummed(ch, checksum, done);
      checksum' := SendSummed(STAR, checksum', done + [ch]);
      checksum' := SendSummed(29 + rl - 1, checksum', done + [ch] + [STAR]);
      assert done + Bytes(Run(ch, rl)) == done + [ch] + [STAR] + [28 + rl];
    }

    method SendDigits(b: byte, checksum: byte, ghost done: seq<byte>) returns (checksum': byte)
      requires checksum == Sum(done) % 256
      modifies this`sent
      ensures var out := [HexDigit(b / 16), HexDigit(b % 16)];
              sent == old(sent) + out && checksum' == Sum(done + out) % 256
    {
      hide Sum, HexDigit;
      checksum' := SendSummed(HexDigit(b / 16), checksum, done);
      checksum' := SendSummed(HexDigit(b % 16), checksum', done + [HexDigit(b / 16)]);
      assert done + [HexDigit(b / 16), HexDigit(b % 16)] == done + [HexDigit(b / 16)] + [HexDigit(b % 16)];
    }

    /** One turn of the loop over a fragment: the next token or two. */
    method SendNext(f: Fragment, p: nat, checksum: byte, ghost done: seq<byte>) returns (q: nat, checksum': byte, ghost out: seq<byte>)
      requires Readable(f) && p < |Content(f)| && checksum == Sum(done) % 256
      modifies this`sent
      ensures p < q <= |Content(f)| && sent == old(sent) + out && checksum' == Sum(done + out) % 256
      ensures Emit(Tokens(Content(f)[p..], f.hexify)) == out + Emit(Tokens(Content(f)[q..], f.hexify))
    {
      hide Sum, Emit, HexDigit, RunLength, Bytes, Tokens, StartsRun;
      ghost var c := Content(f);
      NextTokens(c, p, f.hexify);
      var run := TestRun(f, p);
      if run {
        q := RunEnd(f, p);
        var rl := if f.hexify then (q - p) * 2 else q - p;
        var ch := if f.hexify then HexDigit(f.data[p] % 16) else f.data[p];
        checksum' := SendRun(ch, rl, checksum, done);
        out := Bytes(Run(ch, rl));
        EmitCons(Run(ch, rl), Tokens(c[q..], f.hexify));
      } else if f.hexify {
        checksum' := SendDigits(f.data[p], checksum, done);
        q, out := p + 1, [HexDigit(f.data[p] / 16), HexDigit(f.data[p] % 16)];
        EmitTwo(out[0], out[1], Tokens(c[q..], f.hexify));
      } else {
        checksum' := SendSummed(f.data[p], checksum, done);
        q, out := p + 1, [f.data[p]];
        EmitOne(f.data[p], Tokens(c[q..], f.hexify));
      }
      hide Content, Readable;
    }

    /** The loop over one fragment. */
    method SendFragment(f: Fragment, checksum: byte, ghost done: seq<byte>) returns (checksum': byte)
      requires Readable(f) && checksum == Sum(done) % 256
      modifies this`sent
      ensures sent == old(sent) + Emit(Tokens(Content(f), f.hexify))
      ensures checksum' == Sum(done + Emit(Tokens(Content(f), f.hexify))) % 256
    {
      hide Sum, Tokens, Emit;
      ghost var c := Content(f);
      ghost var body: seq<byte> := [];
      var p := 0;
      checksum' := checksum;
      assert c[0..] == c && done + [] == done && sent + [] == sent;
      while if f.len > 0 then p < f.len else f.data[p] != 0
        invariant 0 <= p <= |c| && sent == old(sent) + body && checksum' == Sum(done + body) % 256
        invariant Emit(Tokens(c, f.hexify)) == body + Emit(Tokens(c[p..], f.hexify))
        decreases |c| - p
      {
        ghost var out;
        ghost var before := body;
        p, checksum', out := SendNext(f, p, checksum', done + body);
        body := body + out;
        assert done + before + out == done + body;
      }
      assert c[p..] == [];
      EmitNothing(f.hexify);
      assert body + [] == body;
    }

    /** `putfrags`: the packet, as often as it takes until the debugger acknowledges it. */
    method PutFrags(frags: seq<Fragment>)
      requires (forall f :: f in frags ==> Readable(f)) && WillAck(replies)
      modifies this
      ensures sent == old(sent) + Times(Packet(AllTokens(frags)), Tries(old(replies)))
      ensures replies == old(replies)[Tries(old(replies))..]
    {
      hide Packet, AllTokens, Times, Readable;
      ghost var packet, n := Packet(AllTokens(frags)), 0;
      TimesNone(sent, packet);
      var acked := false;
      while !acked
        invariant n <= Tries(old(replies)) && replies == old(replies)[n..]
        invariant acked <==> n == Tries(old(replies))
        invariant sent == old(sent) + Times(packet, n)
        decreases Tries(old(replies)) - n
      {
        TimesNext(old(sent), packet, n);
        SendPacket(frags);
        var ch := Recv();
        acked := Acked(ch);
        n := n + 1;
      }
    }

    method SendPacket(frags: seq<Fragment>)
      requires forall f :: f in frags ==> Readable(f)
      modifies this`sent
      ensures sent == old(sent) + Packet(AllTokens(frags))
    {
      hide Emit, Tokens, Readable, Content;
      var checksum := 0;
      ghost var body := [];
      Send(DOLLAR);
      EmitNothing(true);
      for i := 0 to |frags|
        invariant sent == old(sent) + [DOLLAR] + body && checksum == Sum(body) % 256
        invariant body == Emit(AllTokens(frags[..i]))
      {
        ghost var f := frags[i];
        checksum := SendFragment(frags[i], checksum, body);
        EmitAppend(AllTokens(frags[..i]), Tokens(Content(f), f.hexify));
        assert frags[..i + 1][..i] == frags[..i];
        body := body + Emit(Tokens(Content(f), f.hexify));
      }
      assert frags[..|frags|] == frags;
      Send(HASH);
      Send(HexDigit(checksum / 16));
      Send(HexDigit(checksum % 16));
    }
  }

  /** Of the plain text "OK" the receiver takes the digits of 0x4f + 0x4b, which is 0x9a, and no other. */
  lemma OkReceived(hi: byte, lo: byte)
    ensures Receive([DOLLAR, 79, 75, HASH, hi, lo])
            == if 16 * HexValue(hi) + HexValue(lo) == 0x9a then Some([79, 75]) else None
  {
    hide Decode, Sum, HexValue;
    var p := [DOLLAR, 79, 75, HASH, hi, lo];
    OkDecoded([hi, lo]);
    OkSum();
    assert p[1..] == [79, 75, HASH] + [hi, lo];
    assert p[1..|p| - 3] == [79, 75];
  }

  lemma OkSum()
    ensures Sum([79, 75]) == 154
  {
    SumAppend([79], [75]);
    assert [79] + [75] == [79, 75];
    hide Sum;
  }

  lemma OkDecoded(digits: seq<byte>)
    ensures Decode([79, 75, HASH] + digits, []) == Some(([79, 75], digits))
  {
    var s := [79, 75, HASH] + digits;
    assert s[1..] == [75, HASH] + digits && s[1..][1..] == [HASH] + digits && s[1..][1..][1..] == digits;
    assert [] + [79] == [79] && [79] + [75] == [79, 75];
    assert Decode(s[1..][1..], [79, 75]) == Some(([79, 75], digits));
    assert Decode(s[1..], [79]) == Decode(s[1..][1..], [79, 75]);
  }

  lemma OkTokens(f: Fragment)
    requires f == Fragment([79, 75], 2, false)
    ensures Readable(f) && AllTokens([f]) == [One(79), One(75)]
  {
    hide Tokens;
    assert Content(f) == [79, 75];
    NextTokens([79, 75], 0, false);
    NextTokens([79, 75], 1, false);
    assert [79, 75][0..] == [79, 75] && [79, 75][2..] == [];
    assert Tokens([], false) == [] by {
      TokensNone();
    }
    assert [f][..0] == [];
  }

  lemma TokensNone()
    ensures Tokens([], false) == []
  {
  }

  lemma OkPacket()
    ensures var frags := [Fragment([79, 75], 2, false)];
            (forall f :: f in frags ==> Readable(f)) && Packet(AllTokens(frags)) == [DOLLAR, 79, 75, HASH, 57, 97]
  {
    hide Tokens, AllTokens, Sum, Emit;
    OkTokens(Fragment([79, 75], 2, false));
    EmitTwo(79, 75, []);
    EmitNothing(false);
    assert [One(79), One(75)] + [] == [One(79), One(75)];
    assert Emit([One(79), One(75)]) == [79, 75];
    OkSum();
    assert Trailer([79, 75]) == [HASH, 57, 97];
  }

  /**
   "OK", refused with `-` and then acknowledged with a `+` that has its top bit set, goes out twice as `$OK#9a`, which
   is received; `$OK#34` would not be.
   */
  method SendOk() returns (link: Link)
    ensures link.sent == [36, 79, 75, 35, 57, 97, 36, 79, 75, 35, 57, 97] && link.replies == []
    ensures Receive(link.sent[..6]) == Some([79, 75]) && Receive([36, 79, 75, 35, 51, 52]) == None
  {
    hide Receive, Packet, AllTokens, Times;
    link := new Link([45, 171]);
    var frags := [Fragment([79, 75], 2, false)];
    OkPacket();
    OkReceived(57, 97);
    OkReceived(51, 52);
    assert Acked([45, 171][1]) && !Acked([45, 171][0]);
    link.PutFrags(frags);
    TimesNone([], Packet(AllTokens(frags)));
    TimesNext([], Packet(AllTokens(frags)), 0);
    TimesNext([], Packet(AllTokens(frags)), 1);
    assert link.sent[..6] == [36, 79, 75, 35, 57, 97];
  }

  lemma TimesNone(base: seq<byte>, p: seq<byte>)
    ensures base + Times(p, 0) == base
  {
  }

  lemma TimesNext(base: seq<byte>, p: seq<byte>, n: nat)
    ensures base + Times(p, n + 1) == base + Times(p, n) + p
  {
  }

  lemma EmitNothing(hexify: bool)
    ensures Emit(Tokens([], hexify)) == [] && Emit([]) == []
  {
  }

  lemma EmitCons(t: Token, ts: seq<Token>)
    requires Printable(t) && AllPrintable(ts)
    ensures AllPrintable([t] + ts) && Emit([t] + ts) == Bytes(t) + Emit(ts)
  {
    assert ([t] + ts)[1..] == ts;
  }

  lemma EmitOne(c: byte, ts: seq<Token>)
    requires AllPrintable(ts)
    ensures AllPrintable([One(c)] + ts) && Emit([One(c)] + ts) == [c] + Emit(ts)
  {
    EmitCons(One(c), ts);
  }

  lemma EmitTwo(hi: byte, lo: byte, ts: seq<Token>)
    requires AllPrintable(ts)
    ensures AllPrintable([One(hi), One(lo)] + ts) && Emit([One(hi), One(lo)] + ts) == [hi, lo] + Emit(ts)
  {
    EmitCons(One(lo), ts);
    EmitCons(One(hi), [One(lo)] + ts);
    assert [One(hi), One(lo)] + ts == [One(hi)] + ([One(lo)] + ts);
  }

  // ---------------------------------------------------------------- what comes in

  /** The digits of s were decoded into b, which was b0, up to the pair k that has no value. */
  ghost predicate StoppedAt(s: seq<byte>, b: seq<byte>, b0: seq<byte>, k: nat) {
    && 2 * k + 2 <= |s| && k <= |b| == |b0| && AllHex(s[..2 * k]) && (HexValue(s[2 * k]) < 0 || HexValue(s[2 * k + 1]) < 0)
    && b[..k] == FromHex(s[..2 * k]) && b[k..] == b0[k..]
  }

  ghost predicate StoppedEarly(s: seq<byte>, b: seq<byte>, b0: seq<byte>) {
    exists k: nat :: StoppedAt(s, b, b0, k)
  }

  /** `hex2bin`: the bytes before the first pair with a character that is no digit are written, and no other. */
  method Hex2Bin(digits: array<byte>, from: nat, out: array<byte>, len: nat) returns (r: int)
    requires from + 2 * len <= digits.Length && len <= out.Length && digits != out
    modifies out
    ensures r == 0 <==> AllHex(digits[from..from + 2 * len])
    ensures r == 0 ==> out[..len] == FromHex(digits[from..from + 2 * len]) && out[len..] == old(out[len..])
    ensures r != 0 ==> r == -1 && StoppedEarly(digits[from..from + 2 * len], out[..], old(out[..]))
  {
    hide FromHex, HexValue;
    ghost var s := digits[from..from + 2 * len];
    var k := 0;
    assert out[..0] == FromHex([]) && s[..0] == [];
    while k < len
      invariant k <= len && AllHex(s[..2 * k])
      invariant out[..k] == FromHex(s[..2 * k]) && forall j :: k <= j < out.Length ==> out[j] == old(out[j])
    {
      var hi, lo := HexValue(digits[from + 2 * k]), HexValue(digits[from + 2 * k + 1]);
      if hi < 0 || lo < 0 {
        assert StoppedAt(s, out[..], old(out[..]), k);
        return -1;
      }
      FromHexSnoc(s[..2 * k], s[2 * k], s[2 * k + 1]);
      assert s[..2 * k] + [s[2 * k], s[2 * k + 1]] == s[..2 * (k + 1)];
      out[k] := 16 * hi + lo;
      k := k + 1;
    }
    assert s[..2 * len] == s;
    return 0;
  }

  lemma {:induction false} FromHexSnoc(t: seq<byte>, hi: byte, lo: byte)
    requires |t| % 2 == 0 && AllHex(t) && HexValue(hi) >= 0 && HexValue(lo) >= 0
    ensures AllHex(t + [hi, lo]) && FromHex(t + [hi, lo]) == FromHex(t) + [16 * HexValue(hi) + HexValue(lo)]
  {
    if t != [] {
      FromHexSnoc(t[2..], hi, lo);
      assert (t + [hi, lo])[2..] == t[2..] + [hi, lo];
    }
  }

  /** The loop of the `X` command, which unescapes len bytes of its own buffer to the front of it. */
  method UnescapeInPlace(buffer: array<byte>, start: nat, len: nat) returns (ok: bool, out: nat)
    requires start + len <= buffer.Length
    modifies buffer
    ensures out <= len && buffer[out..] == old(buffer[out..])
    ensures Unescape(old(buffer[start..start + len])) == if ok then Some(buffer[..out]) else None
  {
    hide Unescape, Prepend, Flip;
    var i, end := start, start + len;
    out := 0;
    ghost var s, i0 := buffer[start..end], 0;
    PrependNothing(Unescape(s));
    assert buffer[..0] == [] && s[0..] == s;
    while i < end
      invariant i == start + i0 && i <= end && out <= i0
      invariant forall k :: out <= k < buffer.Length ==> buffer[k] == old(buffer[k])
      invariant Unescape(s) == Prepend(buffer[..out], Unescape(s[i0..]))
      decreases end - i
    {
      ghost var done := buffer[..out];
      UnescapeStep(done, s, i0);
      if buffer[i] == ESCAPE {
        if end - i < 2 {
          return false, out;
        }
        buffer[out] := Flip(buffer[i + 1]);
        i, i0 := i + 2, i0 + 2;
      } else {
        buffer[out] := buffer[i];
        i, i0 := i + 1, i0 + 1;
      }
      out := out + 1;
      assert buffer[..out] == done + [buffer[out - 1]];
    }
    assert s[i0..] == [];
    AllDone(buffer[..out]);
    return true, out;
  }

  /** What one turn takes off the rest and adds to the data. */
  lemma UnescapeStep(done: seq<byte>, s: seq<byte>, i: nat)
    requires i < |s|
    ensures s[i] == ESCAPE && i + 1 == |s| ==> Prepend(done, Unescape(s[i..])) == None
    ensures s[i] == ESCAPE && i + 1 < |s| ==>
              Prepend(done, Unescape(s[i..])) == Prepend(done + [Flip(s[i + 1])], Unescape(s[i + 2..]))
    ensures s[i] != ESCAPE ==> Prepend(done, Unescape(s[i..])) == Prepend(done + [s[i]], Unescape(s[i + 1..]))
  {
    var rest := s[i..];
    if rest[0] != ESCAPE {
      assert rest[1..] == s[i + 1..];
      PrependTwice(done, rest[0], Unescape(rest[1..]));
    } else if |rest| >= 2 {
      assert rest[2..] == s[i + 2..];
      PrependTwice(done, Flip(rest[1]), Unescape(rest[2..]));
    }
  }

  lemma AllDone(done: seq<byte>)
    ensures Prepend(done, Unescape([])) == Some(done)
  {
    assert done + [] == done;
  }

  lemma PrependNothing(r: Option<seq<byte>>)
    ensures Prepend([], r) == r
  {
    assert r.Some? ==> [] + r.value == r.value;
  }

  lemma PrependTwice(a: seq<byte>, x: byte, r: Option<seq<byte>>)
    ensures Prepend(a, Prepend([x], r)) == Prepend(a + [x], r)
  {
    assert r.Some? ==> a + ([x] + r.value) == a + [x] + r.value;
  }
}
