/**
 The packets of kernel/gdb_serial.c as values: which runs `putfrags` folds, the bytes it puts on the
 line for them, and the receiver of the GDB Remote Serial Protocol (section "Overview" of the appendix
 of the GDB manual) that has to get the text back.
 */
module GdbCodec {
  import opened Arith
  import opened Wrappers

  const HASH: byte := 35     // '#'
  const DOLLAR: byte := 36   // '$'
  const STAR: byte := 42     // '*'

  /** A character sent as it is, or a character with its repeat count. */
  datatype Token = One(c: byte) | Run(c: byte, rl: nat)

  /** The counts the encoder makes; their repeat characters `29 + rl - 1` are printable. */
  predicate Printable(t: Token) {
    t.Run? ==> 4 <= t.rl <= 98
  }

  function Repeat(c: byte, n: nat): (s: seq<byte>)
    ensures |s| == n
  {
    if n == 0 then [] else [c] + Repeat(c, n - 1)
  }

  /** What one token puts on the line, and what it stands for. */
  function Bytes(t: Token): seq<byte>
    requires Printable(t)
  {
    if t.One? then [t.c] else [t.c, STAR, 28 + t.rl]
  }

  function Meaning(t: Token): seq<byte> {
    if t.One? then [t.c] else Repeat(t.c, t.rl)
  }

  ghost predicate AllPrintable(ts: seq<Token>) { forall i :: 0 <= i < |ts| ==> Printable(ts[i]) }

  function Emit(ts: seq<Token>): seq<byte>
    requires AllPrintable(ts)
  {
    if ts == [] then [] else Bytes(ts[0]) + Emit(ts[1..])
  }

  function Expand(ts: seq<Token>): seq<byte> {
    if ts == [] then [] else Meaning(ts[0]) + Expand(ts[1..])
  }

  lemma {:induction false} EmitAppend(s: seq<Token>, t: seq<Token>)
    requires AllPrintable(s) && AllPrintable(t)
    ensures Emit(s + t) == Emit(s) + Emit(t)
  {
    if s == [] {
      assert s + t == t;
    } else {
      assert (s + t)[1..] == s[1..] + t;
      EmitAppend(s[1..], t);
    }
  }

  lemma {:induction false} ExpandAppend(s: seq<Token>, t: seq<Token>)
    ensures Expand(s + t) == Expand(s) + Expand(t)
  {
    if s == [] {
      assert s + t == t;
    } else {
      assert (s + t)[1..] == s[1..] + t;
      ExpandAppend(s[1..], t);
    }
  }

  function Sum(s: seq<byte>): nat {
    if s == [] then 0 else Sum(s[..|s| - 1]) + s[|s| - 1]
  }

  /** Each byte counts once, with its own value: the sum of a byte is the byte, and sums add up. */
  lemma {:induction false} SumAppend(a: seq<byte>, b: seq<byte>)
    ensures Sum(a + b) == Sum(a) + Sum(b)
    ensures forall c: byte :: Sum([c]) == c
  {
    if b == [] {
      assert a + b == a;
    } else {
      assert (a + b)[..|a + b| - 1] == a + b[..|b| - 1];
      SumAppend(a, b[..|b| - 1]);
    }
  }

  // ---------------------------------------------------------------- hexadecimal

  /** `hexchars` */
  function HexDigit(n: nat): (c: byte)
    requires n < 16
    ensures HexValue(c) == n && c !in {HASH, DOLLAR, STAR}
  {
    if n < 10 then 48 + n else 97 + n - 10
  }

  /** `hex`: -1 for a character that is no digit. */
  function HexValue(c: byte): (v: int)
    ensures -1 <= v < 16
  {
    if 48 <= c <= 57 then c - 48 else if 97 <= c <= 102 then c - 97 + 10 else if 65 <= c <= 70 then c - 65 + 10 else -1
  }

  /** The sixteen digits in order, capitals as well; nothing else is one. */
  lemma HexDigits(c: byte, v: nat)
    requires v < 16
    ensures HexValue(c) == v <==> c as char == "0123456789abcdef"[v] || c as char == "0123456789ABCDEF"[v]
    ensures HexDigit(v) as char == "0123456789abcdef"[v]
  {
  }

  function HexText(b: seq<byte>): (t: seq<byte>)
    ensures |t| == 2 * |b|
  {
    if b == [] then [] else [HexDigit(b[0] / 16), HexDigit(b[0] % 16)] + HexText(b[1..])
  }

  ghost predicate AllHex(t: seq<byte>) { forall k :: 0 <= k < |t| ==> HexValue(t[k]) >= 0 }

  /** The bytes whose digits are t. */
  function FromHex(t: seq<byte>): (b: seq<byte>)
    requires AllHex(t) && |t| % 2 == 0
    ensures |b| == |t| / 2
  {
    if t == [] then [] else [16 * HexValue(t[0]) + HexValue(t[1])] + FromHex(t[2..])
  }

  lemma {:induction false} HexRoundTrip(b: seq<byte>)
    ensures AllHex(HexText(b)) && FromHex(HexText(b)) == b
  {
    if b != [] {
      HexRoundTrip(b[1..]);
      assert HexText(b)[2..] == HexText(b[1..]);
    }
  }

  // ---------------------------------------------------------------- the encoder

  /** How many bytes at the front of c are equal, at most max of them. */
  function RunLength(c: seq<byte>, max: nat): (n: nat)
    requires c != [] && max > 0
    ensures 1 <= n <= |c| && n <= max && forall k :: 0 <= k < n ==> c[k] == c[0]
  {
    if |c| > 1 && max > 1 && c[1] == c[0] then 1 + RunLength(c[1..], max - 1) else 1
  }

  lemma {:induction false} RunLengthIs(c: seq<byte>, max: nat, n: nat)
    requires c != [] && max > 0 && 1 <= n <= |c| && n <= max && forall k :: 0 <= k < n ==> c[k] == c[0]
    requires n == |c| || n == max || c[n] != c[0]
    ensures RunLength(c, max) == n
  {
    if n > 1 {
      assert c[1] == c[0];
      RunLengthIs(c[1..], max - 1, n - 1);
    }
  }

  predicate Doubled(b: byte) { b / 16 == b % 16 }

  /** Four equal output characters make a run: four bytes, or two bytes whose hex digits are all the same. */
  function Tokens(c: seq<byte>, hexify: bool): (ts: seq<Token>)
    ensures AllPrintable(ts)
  {
    if c == [] then []
    else if hexify then
      var n := RunLength(c, 49);
      if n >= 2 && Doubled(c[0]) then [Run(HexDigit(c[0] % 16), 2 * n)] + Tokens(c[n..], hexify)
      else [One(HexDigit(c[0] / 16)), One(HexDigit(c[0] % 16))] + Tokens(c[1..], hexify)
    else
      var n := RunLength(c, 98);
      if n >= 4 then [Run(c[0], n)] + Tokens(c[n..], hexify)
      else [One(c[0])] + Tokens(c[1..], hexify)
  }

  function TextOf(c: seq<byte>, hexify: bool): seq<byte> { if hexify then HexText(c) else c }

  /** The folded form stands for the plain text. */
  lemma {:induction false} ExpandTokens(c: seq<byte>, hexify: bool)
    ensures Expand(Tokens(c, hexify)) == TextOf(c, hexify)
    decreases |c|
  {
    if c != [] {
      var n := RunLength(c, if hexify then 49 else 98);
      ExpandTokens(c[1..], hexify);
      ExpandTokens(c[n..], hexify);
      if hexify {
        ExpandHex(c, n);
      } else {
        ExpandPlain(c, n);
      }
    }
  }

  lemma ExpandHex(c: seq<byte>, n: nat)
    requires c != [] && n == RunLength(c, 49)
    requires Expand(Tokens(c[1..], true)) == HexText(c[1..]) && Expand(Tokens(c[n..], true)) == HexText(c[n..])
    ensures Expand(Tokens(c, true)) == HexText(c)
  {
    hide Expand, RunLength;
    if n >= 2 && Doubled(c[0]) {
      ExpandCons(Run(HexDigit(c[0] % 16), 2 * n), Tokens(c[n..], true));
      HexOfRun(c, n);
      hide HexText;
    } else {
      ExpandPair(HexDigit(c[0] / 16), HexDigit(c[0] % 16), Tokens(c[1..], true));
    }
  }

  lemma ExpandPlain(c: seq<byte>, n: nat)
    requires c != [] && n == RunLength(c, 98)
    requires Expand(Tokens(c[1..], false)) == c[1..] && Expand(Tokens(c[n..], false)) == c[n..]
    ensures Expand(Tokens(c, false)) == c
  {
    hide Expand, RunLength;
    if n >= 4 {
      ExpandCons(Run(c[0], n), Tokens(c[n..], false));
      RepeatAt(c[0], n);
      assert Repeat(c[0], n) == c[..n];
    } else {
      ExpandCons(One(c[0]), Tokens(c[1..], false));
    }
  }

  lemma ExpandPair(hi: byte, lo: byte, us: seq<Token>)
    ensures Expand([One(hi), One(lo)] + us) == [hi, lo] + Expand(us)
  {
    hide Expand;
    ExpandCons(One(lo), us);
    ExpandCons(One(hi), [One(lo)] + us);
    assert [One(hi), One(lo)] + us == [One(hi)] + ([One(lo)] + us);
  }

  lemma ExpandCons(t: Token, us: seq<Token>)
    ensures Expand([t] + us) == Meaning(t) + Expand(us)
  {
    assert ([t] + us)[1..] == us;
  }

  lemma {:induction false} RepeatAt(x: byte, n: nat)
    ensures forall k :: 0 <= k < n ==> Repeat(x, n)[k] == x
  {
    if n > 0 {
      RepeatAt(x, n - 1);
    }
  }

  lemma {:induction false} HexOfRun(c: seq<byte>, n: nat)
    requires n <= |c| && forall k :: 0 <= k < n ==> c[k] == c[0] && Doubled(c[0])
    ensures n > 0 ==> HexText(c) == Repeat(HexDigit(c[0] % 16), 2 * n) + HexText(c[n..])
    ensures n == 0 ==> HexText(c[n..]) == HexText(c)
  {
    if n == 0 {
      assert c[0..] == c;
    } else {
      var d := HexDigit(c[0] % 16);
      HexOfRun(c[1..], n - 1);
      assert c[1..][n - 1..] == c[n..];
      assert Repeat(d, 2 * n) == [d, d] + Repeat(d, 2 * (n - 1));
    }
  }

  // ---------------------------------------------------------------- the receiver

  /** The text read so far is out; s is still on the line.  A repeat character is taken as it comes. */
  function Decode(s: seq<byte>, out: seq<byte>): (r: Option<(seq<byte>, seq<byte>)>)
    ensures r.Some? ==> out <= r.value.0
  {
    if s == [] then None
    else if s[0] == HASH then Some((out, s[1..]))
    else if s[0] == DOLLAR then None
    else if s[0] == STAR then
      if |s| < 2 || out == [] || s[1] < 30 then None
      else Decode(s[2..], out + Repeat(out[|out| - 1], s[1] - 29))
    else Decode(s[1..], out + [s[0]])
  }

  /** The text of a packet with the right checksum. */
  function Receive(packet: seq<byte>): Option<seq<byte>> {
    if |packet| < 4 || packet[0] != DOLLAR then None
    else
      match Decode(packet[1..], [])
      case None => None
      case Some((text, digits)) =>
        if |digits| == 2 && 16 * HexValue(digits[0]) + HexValue(digits[1]) == Sum(packet[1..|packet| - 3]) % 256 then Some(text)
        else None
  }

  /** The end of a packet: `#` and the checksum digits of the body. */
  function Trailer(body: seq<byte>): (t: seq<byte>)
    ensures |t| == 3 && t[0] == HASH
    ensures 16 * HexValue(t[1]) + HexValue(t[2]) == Sum(body) % 256
  {
    var sum := Sum(body) % 256;
    [HASH, HexDigit(sum / 16), HexDigit(sum % 16)]
  }

  /** What `putfrags` sends for these tokens. */
  function Packet(ts: seq<Token>): (p: seq<byte>)
    requires AllPrintable(ts)
    ensures |p| == |Emit(ts)| + 4
  {
    [DOLLAR] + Emit(ts) + Trailer(Emit(ts))
  }

  predicate Clean(c: byte) { c != HASH && c != DOLLAR && c != STAR }

  ghost predicate AllClean(ts: seq<Token>) { forall i :: 0 <= i < |ts| ==> Clean(ts[i].c) }

  /** The receiver undoes tokens of clean characters. */
  lemma {:induction false} DecodeClean(ts: seq<Token>, rest: seq<byte>, out: seq<byte>)
    requires AllPrintable(ts) && AllClean(ts)
    ensures Decode(Emit(ts) + rest, out) == Decode(rest, out + Expand(ts))
  {
    hide Decode, Emit, Expand, Clean, Printable;
    if ts == [] {
      EmptyTokens(rest, out);
    } else {
      DecodeFirst(ts, rest, out);
      DecodeClean(ts[1..], rest, out + Meaning(ts[0]));
      ExpandFirst(ts, out);
    }
  }

  lemma EmptyTokens(rest: seq<byte>, out: seq<byte>)
    ensures Emit([]) + rest == rest && out + Expand([]) == out
  {
  }

  lemma ExpandFirst(ts: seq<Token>, out: seq<byte>)
    requires ts != []
    ensures out + Meaning(ts[0]) + Expand(ts[1..]) == out + Expand(ts)
  {
    hide Meaning;
  }

  lemma DecodeFirst(ts: seq<Token>, rest: seq<byte>, out: seq<byte>)
    requires AllPrintable(ts) && AllClean(ts) && ts != []
    ensures Decode(Emit(ts) + rest, out) == Decode(Emit(ts[1..]) + rest, out + Meaning(ts[0]))
  {
    hide Decode, Meaning, Bytes;
    DecodeToken(ts[0], Emit(ts[1..]) + rest, out);
    assert Emit(ts) + rest == Bytes(ts[0]) + (Emit(ts[1..]) + rest);
  }

  lemma DecodeToken(t: Token, rest: seq<byte>, out: seq<byte>)
    requires Printable(t) && Clean(t.c)
    ensures Decode(Bytes(t) + rest, out) == Decode(rest, out + Meaning(t))
  {
    var s := Bytes(t) + rest;
    if t.One? {
      assert s[1..] == rest;
    } else {
      var out1 := out + [t.c];
      assert s[1..][0] == STAR && s[1..][1] == 28 + t.rl && s[1..][2..] == rest;
      assert out1[|out1| - 1] == t.c;
      assert out1 + Repeat(t.c, t.rl - 1) == out + Repeat(t.c, t.rl);
    }
  }

  /** Once a character of the protocol itself is next, the text is lost: every result continues with something else. */
  lemma DecodeStray(s: seq<byte>, out: seq<byte>, text: seq<byte>)
    requires s != [] && !Clean(s[0]) && |out| < |text| && text[|out|] == s[0] && forall c :: c in out ==> Clean(c)
    ensures var r := Decode(s, out); r.Some? ==> r.value.0 != text
  {
    if s[0] == STAR && out != [] {
      assert out[|out| - 1] in out;
    }
  }

  lemma DecodeUpTo(before: seq<Token>, after: seq<Token>, rest: seq<byte>)
    requires AllPrintable(before) && AllPrintable(after) && AllClean(before)
    ensures AllPrintable(before + after)
    ensures Decode(Emit(before + after) + rest, []) == Decode(Emit(after) + rest, Expand(before))
  {
    hide Decode, Clean, Expand;
    EmitAppend(before, after);
    hide Emit;
    var s := Emit(after) + rest;
    assert Emit(before + after) + rest == Emit(before) + s;
    DecodeClean(before, s, []);
    assert [] + Expand(before) == Expand(before);
  }

  lemma DecodeDirty(before: seq<Token>, after: seq<Token>, rest: seq<byte>)
    requires AllPrintable(before) && AllPrintable(after) && AllClean(before) && after != [] && !Clean(after[0].c)
    ensures AllPrintable(before + after)
    ensures var r := Decode(Emit(before + after) + rest, []); r.Some? ==> r.value.0 != Expand(before + after)
  {
    hide Decode, Clean, Emit, Expand;
    DecodeUpTo(before, after, rest);
    ExpandAppend(before, after);
    StartsWith(after);
    ExpandClean(before);
    DecodeStray(Emit(after) + rest, Expand(before), Expand(before + after));
  }

  lemma StartsWith(ts: seq<Token>)
    requires AllPrintable(ts) && ts != []
    ensures Emit(ts) != [] && Emit(ts)[0] == ts[0].c && Expand(ts) != [] && Expand(ts)[0] == ts[0].c
  {
  }

  lemma {:induction false} ExpandClean(ts: seq<Token>)
    requires AllClean(ts)
    ensures forall c :: c in Expand(ts) ==> Clean(c)
  {
    if ts != [] {
      ExpandClean(ts[1..]);
      if ts[0].Run? {
        RepeatAt(ts[0].c, ts[0].rl);
      }
    }
  }

  lemma ExpandDirty(ts: seq<Token>, i: nat)
    requires AllPrintable(ts) && i < |ts|
    ensures ts[i].c in Expand(ts)
  {
    assert ts == ts[..i] + ts[i..];
    ExpandAppend(ts[..i], ts[i..]);
    StartsWith(ts[i..]);
    assert Expand(ts)[|Expand(ts[..i])|] == ts[i].c;
  }

  /** A packet is received as its text if and only if no `#`, `$` or `*` is in the text. */
  lemma PacketRoundTrip(ts: seq<Token>)
    requires AllPrintable(ts)
    ensures Receive(Packet(ts)) == Some(Expand(ts)) <==> forall c :: c in Expand(ts) ==> Clean(c)
  {
    hide Receive, Packet, Expand, Clean;
    if AllClean(ts) {
      ExpandClean(ts);
      ReceiveClean(ts);
    } else {
      var i := FirstDirty(ts);
      ExpandDirty(ts, i);
      ReceiveDirty(ts[..i], ts[i..]);
      assert ts == ts[..i] + ts[i..];
    }
  }

  lemma ReceiveClean(ts: seq<Token>)
    requires AllPrintable(ts) && AllClean(ts)
    ensures Receive(Packet(ts)) == Some(Expand(ts))
  {
    hide Receive, Packet, Emit, Expand, AllClean, AllPrintable;
    var tail := Trailer(Emit(ts));
    ReceiveIs(ts);
    DecodeClean(ts, tail, []);
    assert [] + Expand(ts) == Expand(ts);
    assert Decode(tail, Expand(ts)) == Some((Expand(ts), tail[1..]));
  }

  lemma ReceiveDirty(before: seq<Token>, after: seq<Token>)
    requires AllPrintable(before) && AllPrintable(after) && AllClean(before) && after != [] && !Clean(after[0].c)
    ensures AllPrintable(before + after) && Receive(Packet(before + after)) != Some(Expand(before + after))
  {
    hide Receive, Packet, Emit, Expand, Clean, Decode;
    ReceiveIs(before + after);
    DecodeDirty(before, after, Trailer(Emit(before + after)));
  }

  /** The receiver's answer is the text it decodes, provided the trailer is all that is left. */
  lemma ReceiveIs(ts: seq<Token>)
    requires AllPrintable(ts)
    ensures var r := Decode(Emit(ts) + Trailer(Emit(ts)), []);
            && (r.Some? && r.value.1 == Trailer(Emit(ts))[1..] ==> Receive(Packet(ts)) == Some(r.value.0))
            && (Receive(Packet(ts)).Some? ==> r.Some? && Receive(Packet(ts)).value == r.value.0)
  {
    hide Decode, Sum;
    var e := Emit(ts);
    assert Packet(ts)[1..] == e + Trailer(e);
    assert Packet(ts)[1..|Packet(ts)| - 3] == e;
  }

  lemma FirstDirty(ts: seq<Token>) returns (i: nat)
    requires !AllClean(ts)
    ensures i < |ts| && AllClean(ts[..i]) && !Clean(ts[i].c)
  {
    i := 0;
    while Clean(ts[i].c)
      invariant i < |ts| && AllClean(ts[..i]) && !AllClean(ts)
      decreases |ts| - i
    {
      assert i + 1 == |ts| ==> AllClean(ts);
      i := i + 1;
    }
  }

  // ---------------------------------------------------------------- hexified packets

  /** Hexified bytes use no character of the protocol, so nothing but the end of the body is a `#`. */
  lemma {:induction false} HexTokensClean(c: seq<byte>)
    ensures AllClean(Tokens(c, true)) && HASH !in Emit(Tokens(c, true))
    decreases |c|
  {
    var ts := Tokens(c, true);
    if c != [] {
      var n := RunLength(c, 49);
      if n >= 2 && Doubled(c[0]) {
        HexTokensClean(c[n..]);
        assert ts[1..] == Tokens(c[n..], true);
      } else {
        HexTokensClean(c[1..]);
        assert ts[1..][1..] == Tokens(c[1..], true);
      }
    }
  }

  /** The repeat characters are printable, and each is the `#` that ends a packet or the `$` that starts one for just one count. */
  lemma RepeatCharacters(t: Token)
    requires Printable(t) && t.Run?
    ensures 32 <= Bytes(t)[2] <= 126
    ensures Bytes(t)[2] == HASH <==> t.rl == 7
    ensures Bytes(t)[2] == DOLLAR <==> t.rl == 8
  {
  }

  /** Seven equal plain characters send a `#` inside the body; four equal bytes of one digit, hexified, a `$`. */
  lemma SevenAndEight()
    ensures Emit(Tokens([97, 97, 97, 97, 97, 97, 97], false)) == [97, STAR, HASH]
    ensures Emit(Tokens([17, 17, 17, 17], true)) == [49, STAR, DOLLAR]
  {
    var a, b := [97, 97, 97, 97, 97, 97, 97], [17, 17, 17, 17];
    RunLengthIs(a, 98, 7);
    RunLengthIs(b, 49, 4);
    assert a[7..] == [] && b[4..] == [];
    assert Tokens(a, false) == [Run(97, 7)] && Tokens(b, true) == [Run(49, 8)];
  }

  // ---------------------------------------------------------------- escaped binary data

  const ESCAPE: byte := 125   // '}'

  /** `b ^ 0x20` */
  function Flip(b: byte): (f: byte)
    ensures f != b && (if f / 32 % 2 == 1 then f - 32 else f + 32) == b
  {
    if b / 32 % 2 == 1 then FlipDown(b); b - 32
    else FlipUp(b); b + 32
  }

  lemma FlipDown(b: byte)
    requires b / 32 % 2 == 1
    ensures b >= 32 && (b - 32) / 32 % 2 == 0
  {
  }

  lemma FlipUp(b: byte)
    requires b / 32 % 2 != 1
    ensures b + 32 < 256 && (b + 32) / 32 % 2 == 1
  {
  }

  /** The data of an `X` packet; none when an escape character ends it. */
  function Unescape(s: seq<byte>): (r: Option<seq<byte>>)
    ensures r.Some? ==> |r.value| <= |s| && (|r.value| == |s| ==> ESCAPE !in s)
  {
    if s == [] then Some([])
    else if s[0] == ESCAPE then
      if |s| < 2 then None else Prepend([Flip(s[1])], Unescape(s[2..]))
    else Prepend([s[0]], Unescape(s[1..]))
  }

  function Prepend(a: seq<byte>, r: Option<seq<byte>>): Option<seq<byte>> {
    match r
    case None => None
    case Some(b) => Some(a + b)
  }

  /** How a sender hides the bytes of `special`. */
  function Escape(d: seq<byte>, special: set<byte>): (s: seq<byte>)
    ensures |s| >= |d|
  {
    if d == [] then []
    else (if d[0] in special then [ESCAPE, Flip(d[0])] else [d[0]]) + Escape(d[1..], special)
  }

  lemma {:induction false} EscapeRoundTrip(d: seq<byte>, special: set<byte>)
    requires ESCAPE in special
    ensures Unescape(Escape(d, special)) == Some(d)
  {
    if d != [] {
      EscapeRoundTrip(d[1..], special);
      var s, t := Escape(d, special), Escape(d[1..], special);
      assert d == [d[0]] + d[1..];
      if d[0] in special {
        assert s[0] == ESCAPE && s[1] == Flip(d[0]) && s[2..] == t;
      } else {
        assert s[0] == d[0] && s[1..] == t;
      }
    }
  }

  /** The command counts the escaped bytes, the protocol the data: they agree exactly when nothing is escaped. */
  lemma LengthOfEscaped(d: seq<byte>, special: set<byte>)
    requires ESCAPE in special
    ensures Unescape(Escape(d, special)[..|d|]) == Some(d) <==> forall c :: c in d ==> c !in special
  {
    if forall c :: c in d ==> c !in special {
      EscapePlain(d, special);
      EscapeRoundTrip(d, special);
      assert d[..|d|] == d;
    } else {
      EscapeShows(d, special);
    }
  }

  /** A write of the one byte `}`, escaped, of which the command takes one byte only. */
  lemma LengthFails()
    ensures Escape([125], {125}) == [125, 93] && Unescape([125]) == None
    ensures Unescape(Escape([ESCAPE], {ESCAPE})[..1]) != Some([ESCAPE])
  {
    assert Escape([], {ESCAPE}) == [];
    assert Escape([ESCAPE], {ESCAPE})[..1] == [ESCAPE];
  }

  lemma {:induction false} EscapePlain(d: seq<byte>, special: set<byte>)
    requires forall c :: c in d ==> c !in special
    ensures Escape(d, special) == d
  {
    if d != [] {
      EscapePlain(d[1..], special);
    }
  }

  lemma {:induction false} EscapeShows(d: seq<byte>, special: set<byte>)
    requires exists c :: c in d && c in special
    ensures ESCAPE in Escape(d, special)[..|d|]
  {
    var s := Escape(d, special);
    if d[0] in special {
      assert s[..|d|][0] == ESCAPE;
    } else {
      EscapeShows(d[1..], special);
      assert s[..|d|] == [d[0]] + Escape(d[1..], special)[..|d| - 1];
    }
  }
}
