/**
 Packing the NVRAM text file for the WiFi firmware: comments and blank lines go, carriage returns
 go, every remaining line becomes a NUL-terminated token, and a length token closes the image.
 */
module Nvram {
  type Byte = b: nat | b < 256

  const NUL: Byte := 0
  const LF: Byte := 10
  const CR: Byte := 13
  const HASH: Byte := 35

  function WithoutCr(s: seq<Byte>): seq<Byte> {
    if s == [] then []
    else WithoutCr(s[..|s| - 1]) + (if s[|s| - 1] == CR then [] else [s[|s| - 1]])
  }

  // The lines of a text; what follows the last line feed is a line as well.
  function Lines(s: seq<Byte>): (ls: seq<seq<Byte>>)
    ensures |ls| > 0
  {
    if s == [] then [[]]
    else if s[0] == LF then [[]] + Lines(s[1..])
    else
      var ls := Lines(s[1..]);
      [[s[0]] + ls[0]] + ls[1..]
  }

  predicate IsKept(line: seq<Byte>) {
    line != [] && line[0] != HASH
  }

  function Kept(lines: seq<seq<Byte>>): (ks: seq<seq<Byte>>)
    ensures forall k :: 0 <= k < |ks| ==> IsKept(ks[k])
  {
    if lines == [] then []
    else Kept(lines[..|lines| - 1]) + (if IsKept(lines[|lines| - 1]) then [lines[|lines| - 1]] else [])
  }

  // The entries of an NVRAM text.
  function Entries(raw: seq<Byte>): seq<seq<Byte>> {
    Kept(Lines(WithoutCr(raw)))
  }

  // A line that happens to end in NUL is not given another one.
  function Terminated(line: seq<Byte>): seq<Byte> {
    if line != [] && line[|line| - 1] == NUL then line else line + [NUL]
  }

  function Pack(entries: seq<seq<Byte>>): seq<Byte> {
    if entries == [] then []
    else Pack(entries[..|entries| - 1]) + Terminated(entries[|entries| - 1])
  }

  function Roundup4(n: nat): nat {
    (n + 3) / 4 * 4
  }

  function Zeros(n: nat): (z: seq<Byte>)
    ensures |z| == n && forall i :: 0 <= i < n ==> z[i] == NUL
  {
    seq(n, _ => NUL)
  }

  // The packed tokens with at least one more NUL, up to a multiple of four bytes.
  function Padded(p: seq<Byte>): (q: seq<Byte>)
    ensures |q| == Roundup4(|p| + 1) && |q| % 4 == 0 && q[|q| - 1] == NUL
  {
    p + Zeros(Roundup4(|p| + 1) - |p|)
  }

  // The length token, little-endian: the word count and its complement, sixteen bits each.
  function Token(words: nat): seq<Byte> {
    var lo := words % 0x1_0000;
    var hi := 0xffff - lo;
    [lo % 256, lo / 256, hi % 256, hi / 256]
  }

  function Image(raw: seq<Byte>): seq<Byte> {
    var q := Padded(Pack(Entries(raw)));
    q + Token(|q| / 4)
  }

  // What the scan has put in the buffer for the line it is in.
  function Open(line: seq<Byte>): seq<Byte> {
    if line != [] && line[0] == HASH then [] else line
  }

  function Last(lines: seq<seq<Byte>>): seq<Byte>
    requires lines != []
  {
    lines[|lines| - 1]
  }

  // Lines with one more byte behind the last one, and with one more in front of the first one.
  function WithByte(ls: seq<seq<Byte>>, c: Byte): (r: seq<seq<Byte>>)
    requires ls != []
    ensures r != []
  {
    if c == LF then ls + [[]] else ls[..|ls| - 1] + [Last(ls) + [c]]
  }

  function InFront(b: Byte, ls: seq<seq<Byte>>): (r: seq<seq<Byte>>)
    requires ls != []
    ensures r != []
  {
    if b == LF then [[]] + ls else [[b] + ls[0]] + ls[1..]
  }

  // The two do not get in each other's way.
  lemma FrontAndBack(b: Byte, ls: seq<seq<Byte>>, c: Byte)
    requires ls != []
    ensures WithByte(InFront(b, ls), c) == InFront(b, WithByte(ls, c))
  {
    if |ls| == 1 {
      assert [b] + (ls[0] + [c]) == ([b] + ls[0]) + [c];
    }
  }

  lemma LinesInFront(s: seq<Byte>)
    requires s != []
    ensures Lines(s) == InFront(s[0], Lines(s[1..]))
  {
  }

  lemma LinesOfOne(c: Byte)
    ensures Lines([c]) == WithByte(Lines([]), c)
  {
    LinesInFront([c]);
    assert [c][1..] == [];
    var none: seq<seq<Byte>> := [[]];
    assert Lines([]) == none && none[..0] == none[1..] == [];
    assert [c] + none[0] == [c] && Last(none) + [c] == [c];
  }

  lemma {:induction false} LinesAppend(s: seq<Byte>, c: Byte)
    ensures Lines(s + [c]) == WithByte(Lines(s), c)
    decreases |s|
  {
    LinesOfOne(c);
    hide Lines, WithByte, InFront;
    if s == [] {
      assert s + [c] == [c];
    } else {
      var t := s + [c];
      assert t[0] == s[0] && t[1..] == s[1..] + [c];
      LinesInFront(s);
      LinesInFront(t);
      LinesAppend(s[1..], c);
      FrontAndBack(s[0], Lines(s[1..]), c);
    }
  }

  // What one more byte does to the finished lines and the open one.
  lemma ScanByte(raw: seq<Byte>, c: Byte, done: seq<seq<Byte>>, line: seq<Byte>)
    requires Lines(WithoutCr(raw)) == done + [line]
    ensures Lines(WithoutCr(raw + [c])) ==
      if c == CR then done + [line]
      else if c == LF then (done + [line]) + [[]]
      else done + [line + [c]]
  {
    var s := WithoutCr(raw);
    assert (raw + [c])[..|raw|] == raw;
    assert WithoutCr(raw + [c]) == if c == CR then s else s + [c];
    LinesAppend(s, c);
    assert (done + [line])[..|done|] == done && Last(done + [line]) == line;
  }

  lemma Assoc(a: seq<Byte>, b: seq<Byte>, c: seq<Byte>)
    ensures a + b + c == a + (b + c)
  {
  }

  lemma PackAppend(entries: seq<seq<Byte>>, e: seq<Byte>)
    ensures Pack(entries + [e]) == Pack(entries) + Terminated(e)
  {
    var all := entries + [e];
    assert all != [] && all[..|all| - 1] == entries && all[|all| - 1] == e;
  }

  // Finishing a line appends its token, if it has one.
  lemma PackLine(done: seq<seq<Byte>>, line: seq<Byte>)
    ensures Pack(Kept(done + [line])) == Pack(Kept(done)) + (if IsKept(line) then Terminated(line) else [])
  {
    assert (done + [line])[..|done|] == done;
    PackAppend(Kept(done), line);
    assert Kept(done + [line]) == if IsKept(line) then Kept(done) + [line] else Kept(done);
  }

  lemma PackEnds(entries: seq<seq<Byte>>)
    ensures Pack(entries) != [] ==> Pack(entries)[|Pack(entries)| - 1] == NUL
  {
    if entries != [] {
      var t := Terminated(entries[|entries| - 1]);
      var p := Pack(entries[..|entries| - 1]);
      var q := Pack(entries);
      assert q == p + t && t != [] && t[|t| - 1] == NUL;
      assert q[|q| - 1] == t[|t| - 1];
    }
  }

  /**
   The line-feed branch: with the buffer holding the finished tokens and the open line, a NUL is due
   exactly when the line is kept and does not end in one already.
   */
  lemma LineFeed(done: seq<seq<Byte>>, line: seq<Byte>, out: seq<Byte>)
    requires out == Pack(Kept(done)) + Open(line)
    ensures Pack(Kept(done + [line])) ==
      if IsKept(line) && out != [] && out[|out| - 1] != NUL then out + [NUL] else out
    ensures !IsKept(line) && out != [] ==> out[|out| - 1] == NUL
  {
    PackLine(done, line);
    PackEnds(Kept(done));
    var p := Pack(Kept(done));
    hide Pack, Kept;
    if IsKept(line) {
      assert out == p + line && out[|out| - 1] == line[|line| - 1];
      if line[|line| - 1] != NUL {
        Assoc(p, line, [NUL]);
      }
    } else {
      assert out == p && p + [] == p;
    }
  }

  // One byte more behind the first n.
  method Put(buf: array<Byte>, n: nat, c: Byte)
    requires n < buf.Length && forall k :: n <= k < buf.Length ==> buf[k] == NUL
    modifies buf
    ensures buf[..n + 1] == old(buf[..n]) + [c]
    ensures forall k :: n + 1 <= k < buf.Length ==> buf[k] == NUL
  {
    buf[n] := c;
  }

  // A byte behind the open line shows in the buffer unless the line is a comment.
  lemma OpenMore(p: seq<Byte>, line: seq<Byte>, c: Byte)
    ensures p + Open(line + [c]) ==
      if (if line == [] then c == HASH else line[0] == HASH) then p + Open(line) else p + Open(line) + [c]
  {
    Assoc(p, Open(line), [c]);
  }

  // The end of a line: a NUL goes behind its token unless there is none, or one already, or no token.
  method CloseLine(buf: array<Byte>, n: nat, skip: bool, ghost done: seq<seq<Byte>>, ghost line: seq<Byte>)
    returns (buflen: nat)
    requires n < buf.Length && forall k :: n <= k < buf.Length ==> buf[k] == NUL
    requires buf[..n] == Pack(Kept(done)) + Open(line) && (skip ==> !IsKept(line))
    modifies buf
    ensures n <= buflen <= n + 1
    ensures buf[..buflen] == Pack(Kept(done + [line])) && Open([]) == []
    ensures forall k :: buflen <= k < buf.Length ==> buf[k] == NUL
  {
    LineFeed(done, line, buf[..n]);
    hide Pack, Kept, IsKept;
    buflen := n;
    if !skip && n > 0 && buf[n - 1] != NUL {
      Put(buf, n, NUL);
      buflen := n + 1;
    }
  }

  // The scan over the text, into a zero-filled buffer.
  method Scan(raw: seq<Byte>, buf: array<Byte>) returns (buflen: nat)
    requires |raw| < buf.Length && forall k :: 0 <= k < buf.Length ==> buf[k] == NUL
    modifies buf
    ensures buflen <= |raw| + 1
    ensures buf[..buflen] == Pack(Entries(raw))
    ensures forall k :: buflen <= k < buf.Length ==> buf[k] == NUL
  {
    hide Lines, Kept, Pack, WithoutCr, Terminated, Open;
    buflen := 0;
    var inComment, atBol := false, true;
    var i := 0;
    ghost var line := [];
    ghost var done: seq<seq<Byte>> := [];
    ScanStart(raw);
    while i < |raw|
      invariant i <= |raw| && buflen <= i
      invariant Lines(WithoutCr(raw[..i])) == done + [line]
      invariant inComment == (line != [] && line[0] == HASH) && atBol == (line == [])
      invariant buf[..buflen] == Pack(Kept(done)) + Open(line)
      invariant forall k :: buflen <= k < buf.Length ==> buf[k] == NUL
    {
      var c := raw[i];
      assert raw[..i + 1] == raw[..i] + [c];
      ScanByte(raw[..i], c, done, line);
      i := i + 1;
      if c == CR {
        continue;
      }
      if c == LF {
        buflen := CloseLine(buf, buflen, inComment || atBol, done, line);
        inComment, atBol := false, true;
        done, line := done + [line], [];
        continue;
      }
      OpenMore(Pack(Kept(done)), line, c);
      line := line + [c];
      if atBol && c == HASH {
        inComment, atBol := true, false;
        continue;
      }
      atBol := false;
      if inComment {
        continue;
      }
      Put(buf, buflen, c);
      buflen := buflen + 1;
    }
    assert raw[..i] == raw;
    buflen := CloseLine(buf, buflen, false, done, line);
  }

  lemma ScanStart(raw: seq<Byte>)
    ensures Lines(WithoutCr(raw[..0])) == [] + [[]]
    ensures Pack(Kept([])) == [] && Open([]) == []
  {
  }

  method Parse(raw: seq<Byte>) returns (buf: array<Byte>, outlen: nat)
    ensures fresh(buf) && buf.Length == Roundup4(|raw| + 2) + 4
    ensures outlen <= buf.Length && buf[..outlen] == Image(raw)
  {
    buf := new Byte[Roundup4(|raw| + 2) + 4](_ => NUL);
    var buflen := Scan(raw, buf);
    ghost var p := Pack(Entries(raw));
    var k := Pad(buf, buflen);
    assert buf[..k] == Padded(p);
    PutToken(buf, k);
    outlen := k + 4;
  }

  // The extra NUL and the padding; the extra one is in the buffer already.
  method Pad(buf: array<Byte>, buflen: nat) returns (k: nat)
    requires Roundup4(buflen + 1) <= buf.Length
    requires forall j :: buflen <= j < buf.Length ==> buf[j] == NUL
    modifies buf
    ensures k == Roundup4(buflen + 1)
    ensures buf[..] == old(buf[..])
  {
    k := buflen + 1;
    while k % 4 != 0
      invariant buflen + 1 <= k <= Roundup4(buflen + 1)
      invariant buf[..] == old(buf[..])
      decreases Roundup4(buflen + 1) - k
    {
      buf[k] := NUL;
      k := k + 1;
    }
  }

  method PutToken(buf: array<Byte>, k: nat)
    requires k + 4 <= buf.Length
    modifies buf
    ensures buf[..k + 4] == old(buf[..k]) + Token(k / 4)
  {
    var lo := k / 4 % 0x1_0000;
    var hi := 0xffff - lo;
    buf[k], buf[k + 1], buf[k + 2], buf[k + 3] := lo % 256, lo / 256, hi % 256, hi / 256;
  }

  // What the firmware reads: tokens up to an empty one or the end.
  function ReadTokens(s: seq<Byte>): (ts: seq<seq<Byte>>)
    ensures forall i :: 0 <= i < |ts| ==> ts[i] != [] && NUL !in ts[i]
    decreases |s|
  {
    var t := FirstToken(s);
    if t == [] then []
    else [t] + (if |t| == |s| then [] else ReadTokens(s[|t| + 1..]))
  }

  function FirstToken(s: seq<Byte>): (t: seq<Byte>)
    ensures t <= s && NUL !in t
    ensures |t| < |s| ==> s[|t|] == NUL
  {
    if s == [] || s[0] == NUL then [] else [s[0]] + FirstToken(s[1..])
  }

  lemma {:induction false} FirstTokenOf(t: seq<Byte>, rest: seq<Byte>)
    requires NUL !in t
    ensures FirstToken(t + [NUL] + rest) == t
  {
    var s := t + [NUL] + rest;
    if t != [] {
      assert s[1..] == t[1..] + [NUL] + rest;
      FirstTokenOf(t[1..], rest);
    }
  }

  lemma ReadOne(t: seq<Byte>, rest: seq<Byte>)
    requires t != [] && NUL !in t
    ensures ReadTokens(t + [NUL] + rest) == [t] + ReadTokens(rest)
  {
    FirstTokenOf(t, rest);
    assert (t + [NUL] + rest)[|t| + 1..] == rest;
  }

  lemma {:induction false} ReadPack(entries: seq<seq<Byte>>, rest: seq<Byte>)
    requires forall i :: 0 <= i < |entries| ==> entries[i] != [] && NUL !in entries[i]
    ensures ReadTokens(Pack(entries) + rest) == entries + ReadTokens(rest)
    decreases |entries|
  {
    hide Pack, ReadTokens;
    if entries == [] {
      PackNone(rest);
    } else {
      var n := |entries| - 1;
      PackSplit(entries, rest);
      ReadPack(entries[..n], entries[n] + [NUL] + rest);
      ReadOne(entries[n], rest);
      assert entries[..n] + ([entries[n]] + ReadTokens(rest)) == entries + ReadTokens(rest);
    }
  }

  lemma PackNone(rest: seq<Byte>)
    ensures Pack([]) + rest == rest
  {
  }

  lemma PackSplit(entries: seq<seq<Byte>>, rest: seq<Byte>)
    requires entries != [] && NUL !in entries[|entries| - 1]
    ensures Pack(entries) + rest == Pack(entries[..|entries| - 1]) + (entries[|entries| - 1] + [NUL] + rest)
  {
    var t := entries[|entries| - 1];
    assert Terminated(t) == t + [NUL];
    Assoc(Pack(entries[..|entries| - 1]), t + [NUL], rest);
  }

  /**
   Round trip: the firmware reads back from the image exactly the entries of the text, and this holds if
   and only if no entry has a NUL in it.
   */
  lemma FirmwareReadsEntries(raw: seq<Byte>)
    ensures ReadTokens(Image(raw)) == Entries(raw)
       <==> forall i :: 0 <= i < |Entries(raw)| ==> NUL !in Entries(raw)[i]
  {
    var entries := Entries(raw);
    var p := Pack(entries);
    var rest := Image(raw)[|p|..];
    assert Image(raw) == p + rest && rest[0] == NUL;
    if forall i :: 0 <= i < |entries| ==> NUL !in entries[i] {
      ReadPack(entries, rest);
      assert ReadTokens(rest) == [];
    }
  }

  // Such a text: one line "A NUL B", which the firmware reads as two tokens.
  lemma NulSplitsLine()
    ensures var raw: seq<Byte> := [65, NUL, 66];
      Entries(raw) == [raw] && ReadTokens(Image(raw)) == [[65], [66]]
  {
    var raw: seq<Byte> := [65, NUL, 66];
    OneEntry(raw);
    var rest := ImageOf(raw);
    hide ReadTokens, Entries, Image;
    ReadOne([65], [66] + [NUL] + rest);
    ReadOne([66], rest);
    ReadNone(rest);
    assert [[65]] + ([[66]] + []) == [[65], [66]];
  }

  lemma ImageOf(raw: seq<Byte>) returns (rest: seq<Byte>)
    requires raw == [65, NUL, 66] && Entries(raw) == [raw]
    ensures Image(raw) == [65] + [NUL] + ([66] + [NUL] + rest)
    ensures rest != [] && rest[0] == NUL
  {
    hide Entries, Token, Padded, Pack, Zeros;
    var p := raw + [NUL];
    PackOne(raw);
    PadFour(p);
    rest := Zeros(4) + Token(2);
    assert Image(raw) == p + Zeros(4) + Token(2);
    assert p == [65] + [NUL] + ([66] + [NUL]);
  }

  lemma PackOne(raw: seq<Byte>)
    requires raw != [] && raw[|raw| - 1] != NUL
    ensures Pack([raw]) == raw + [NUL]
  {
    assert [raw][..0] == [] && Pack([raw]) == Pack([]) + Terminated(raw);
  }

  lemma PadFour(p: seq<Byte>)
    requires |p| == 4
    ensures Padded(p) == p + Zeros(4) && |Padded(p)| / 4 == 2
  {
    assert Roundup4(|p| + 1) == 8;
  }

  lemma OneEntry(raw: seq<Byte>)
    requires CR !in raw && LF !in raw && IsKept(raw)
    ensures Entries(raw) == [raw]
  {
    NothingDropped(raw);
    OneLine(raw);
    assert [raw][..0] == [] && Kept([raw]) == Kept([]) + [raw];
  }

  lemma {:induction false} NothingDropped(s: seq<Byte>)
    requires CR !in s
    ensures WithoutCr(s) == s
  {
    if s != [] {
      NothingDropped(s[..|s| - 1]);
    }
  }

  lemma {:induction false} OneLine(s: seq<Byte>)
    requires LF !in s
    ensures Lines(s) == [s]
  {
    if s != [] {
      OneLine(s[1..]);
      assert [s[0]] + s[1..] == s;
    }
  }

  lemma ReadNone(s: seq<Byte>)
    requires s != [] && s[0] == NUL
    ensures ReadTokens(s) == []
  {
    assert FirstToken(s) == [];
  }

  // A text without NUL has only entries without NUL.
  lemma {:induction false} NulFreeText(raw: seq<Byte>)
    requires NUL !in raw
    ensures ReadTokens(Image(raw)) == Entries(raw)
  {
    NulFreeLines(WithoutCr(raw));
    NulFreeWithoutCr(raw);
    KeptAmong(Lines(WithoutCr(raw)));
    FirmwareReadsEntries(raw);
  }

  lemma {:induction false} NulFreeWithoutCr(s: seq<Byte>)
    ensures NUL !in s ==> NUL !in WithoutCr(s)
  {
    if s != [] {
      NulFreeWithoutCr(s[..|s| - 1]);
    }
  }

  lemma {:induction false} NulFreeLines(s: seq<Byte>)
    ensures NUL !in s ==> forall i :: 0 <= i < |Lines(s)| ==> NUL !in Lines(s)[i]
  {
    if s != [] {
      NulFreeLines(s[1..]);
    }
  }

  lemma {:induction false} KeptAmong(lines: seq<seq<Byte>>)
    ensures forall i :: 0 <= i < |Kept(lines)| ==> Kept(lines)[i] in lines
  {
    if lines != [] {
      KeptAmong(lines[..|lines| - 1]);
    }
  }

  // The length of a text, given its lines.
  function Span(lines: seq<seq<Byte>>): nat {
    if lines == [] then 0 else Span(lines[..|lines| - 1]) + |lines[|lines| - 1]| + 1
  }

  lemma {:induction false} LinesSpan(s: seq<Byte>)
    ensures Span(Lines(s)) == |s| + 1
  {
    if s == [] {
      var ls: seq<seq<Byte>> := [[]];
      assert ls[..0] == [];
    } else {
      var n := |s| - 1;
      var ls := Lines(s[..n]);
      assert s[..n] + [s[n]] == s;
      LinesAppend(s[..n], s[n]);
      LinesSpan(s[..n]);
      assert (ls + [[]])[..|ls|] == ls;
      var more := Last(ls) + [s[n]];
      assert (ls[..|ls| - 1] + [more])[..|ls| - 1] == ls[..|ls| - 1];
    }
  }

  lemma {:induction false} PackedSize(lines: seq<seq<Byte>>)
    ensures |Pack(Kept(lines))| <= Span(lines)
  {
    if lines != [] {
      var done, line := lines[..|lines| - 1], lines[|lines| - 1];
      PackedSize(done);
      assert lines == done + [line];
      PackLine(done, line);
    }
  }

  /**
   The size and the closing token of the image: whole words, at most roundup(rawlen + 2, 4) + 4 bytes,
   the last word holding the number of the others and its complement, after a double NUL.
   */
  lemma ImageShape(raw: seq<Byte>)
    ensures var im := Image(raw);
      && |im| % 4 == 0 && 8 <= |im| <= Roundup4(|raw| + 2) + 4
      && Half(im[|im| - 4], im[|im| - 3]) == (|im| / 4 - 1) % 0x1_0000
      && Half(im[|im| - 2], im[|im| - 1]) == 0xffff - (|im| / 4 - 1) % 0x1_0000
      && im[|im| - 5] == NUL
  {
    hide Padded, Token, Half, Roundup4, Pack, Kept, Lines;
    var s := WithoutCr(raw);
    PackedSize(Lines(s));
    LinesSpan(s);
    WithoutCrSize(raw);
    var p := Pack(Entries(raw));
    assert |p| <= |raw| + 1;
    Close(p, |raw| + 2);
  }

  lemma TokenHalves(words: nat)
    ensures var t := Token(words);
      && |t| == 4
      && Half(t[0], t[1]) == words % 0x1_0000 && Half(t[2], t[3]) == 0xffff - words % 0x1_0000
  {
  }

  lemma RoundedUp(m: nat, n: nat)
    requires 0 < m <= n
    ensures 4 <= Roundup4(m) <= Roundup4(n) && Roundup4(m) % 4 == 0
  {
  }

  // What a whole number of words followed by one more ends in.
  lemma Tail(q: seq<Byte>, t: seq<Byte>)
    requires |q| % 4 == 0 && |q| > 0 && |t| == 4
    ensures var im := q + t;
      && |im| == |q| + 4 && |im| % 4 == 0 && |im| / 4 - 1 == |q| / 4
      && im[|im| - 4] == t[0] && im[|im| - 3] == t[1] && im[|im| - 2] == t[2] && im[|im| - 1] == t[3]
      && im[|im| - 5] == q[|q| - 1]
  {
  }

  lemma Close(p: seq<Byte>, n: nat)
    requires |p| + 1 <= n
    ensures var im := Padded(p) + Token(|Padded(p)| / 4);
      && |im| % 4 == 0 && 8 <= |im| <= Roundup4(n) + 4
      && Half(im[|im| - 4], im[|im| - 3]) == (|im| / 4 - 1) % 0x1_0000
      && Half(im[|im| - 2], im[|im| - 1]) == 0xffff - (|im| / 4 - 1) % 0x1_0000
      && im[|im| - 5] == NUL
  {
    var q := Padded(p);
    var t := Token(|q| / 4);
    TokenHalves(|q| / 4);
    RoundedUp(|p| + 1, n);
    hide Padded, Token, Half, Roundup4;
    Tail(q, t);
  }

  function Half(lo: Byte, hi: Byte): nat {
    lo as int + 256 * (hi as int)
  }

  lemma {:induction false} WithoutCrSize(s: seq<Byte>)
    ensures |WithoutCr(s)| <= |s|
  {
    if s != [] {
      WithoutCrSize(s[..|s| - 1]);
    }
  }
}
