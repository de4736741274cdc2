/**
 * Reading an HTTP response: headers, and the three kinds of body. The readers work on a growing
 * buffer, however the stream is cut into reads; each is specified by a parse of the whole stream.
 */
module HttpBody {
  import opened Bytes
  import opened Net

  const MAX_HEADER_BYTES: nat := 64 * 1024
  const MAX_BODY_BYTES: nat := 256 * 1024
  const READ_CHUNK: nat := 8192

  const CR: byte := 13
  const LF: byte := 10
  const CRLF: seq<byte> := [13, 10]

  /** The buffer of one read. */
  function Room(len: nat, limit: nat): (n: nat)
    requires len < limit
    ensures 1 <= n <= limit - len && n <= READ_CHUNK
  {
    if limit - len < READ_CHUNK then limit - len else READ_CHUNK
  }

  /** One more read into `buf`, at most up to `limit`. None when the limit or the end is reached. */
  method ReadMore(reader: TcpReader, buf: seq<byte>, limit: nat) returns (r: Option<seq<byte>>)
    modifies reader
    ensures r.None? <==> |buf| >= limit || old(reader.data) == []
    ensures r.None? ==> reader.data == old(reader.data)
    ensures r.Some? ==>
      && |r.value| == |buf| + Taken(old(reader.cuts), Room(|buf|, limit), |old(reader.data)|)
      && reader.cuts == Later(old(reader.cuts))
    ensures r.Some? ==>
      && buf < r.value && |r.value| <= limit
      && r.value + reader.data == buf + old(reader.data)
  {
    if |buf| >= limit { return None; }
    var chunk := new byte[Room(|buf|, limit)];
    ghost var data := reader.data;
    var n := reader.Read(chunk);
    if n == 0 { return None; }
    assert (buf + chunk[..n]) + data[n..] == buf + data;
    return Some(buf + chunk[..n]);
  }

  /** What a reader with this limit can ever see of a stream. */
  function Visible(stream: seq<byte>, limit: nat): (s: seq<byte>)
    ensures s <= stream && |s| <= limit
  {
    if |stream| <= limit then stream else stream[..limit]
  }

  /** A buffer that can grow no more holds all that is visible. */
  lemma NoMore(buf: seq<byte>, rest: seq<byte>, limit: nat)
    requires |buf| <= limit
    ensures buf <= Visible(buf + rest, limit)
    ensures |buf| >= limit || rest == [] ==> buf == Visible(buf + rest, limit)
  {
    if rest == [] { assert buf + rest == buf; }
    if |buf| == limit { assert (buf + rest)[..limit] == buf; }
  }

  // Headers --------------------------------------------------------------------

  predicate Blank(s: seq<byte>, i: nat) {
    i + 4 <= |s| && s[i] == CR && s[i + 1] == LF && s[i + 2] == CR && s[i + 3] == LF
  }

  /** Where the headers end: behind the first blank line. */
  function HeaderEnd(s: seq<byte>, from: nat): (end: Option<nat>)
    ensures end.Some? ==> from + 4 <= end.value <= |s| && Blank(s, end.value - 4)
    ensures forall i: nat | from <= i && (end.None? || i < end.value - 4) :: !Blank(s, i)
    decreases |s| - from
  {
    if from + 4 > |s| then None
    else if Blank(s, from) then Some(from + 4)
    else HeaderEnd(s, from + 1)
  }

  /** The header length, and the buffer with whatever was read behind the headers. */
  method ReadUntilHeaders(reader: TcpReader) returns (r: Option<(nat, seq<byte>)>)
    modifies reader
    ensures var end := HeaderEnd(Visible(old(reader.data), MAX_HEADER_BYTES), 0);
      && (r.Some? <==> end.Some?)
      && (r.Some? ==>
            && r.value.0 == end.value <= |r.value.1| <= MAX_HEADER_BYTES
            && r.value.1 + reader.data == old(reader.data))
  {
    var buf := [];
    ghost var all := Visible(reader.data, MAX_HEADER_BYTES);
    assert buf + reader.data == reader.data;
    while true
      invariant |buf| <= MAX_HEADER_BYTES && buf + reader.data == old(reader.data)
      decreases MAX_HEADER_BYTES - |buf|
    {
      NoMore(buf, reader.data, MAX_HEADER_BYTES);
      var end := HeaderEnd(buf, 0);
      if end.Some? {
        FirstBlank(buf, all);
        return Some((end.value, buf));
      }
      if |buf| >= MAX_HEADER_BYTES { return None; }
      var more := ReadMore(reader, buf, MAX_HEADER_BYTES);
      if more.None? { return None; }
      buf := more.value;
    }
  }

  lemma FirstBlank(buf: seq<byte>, all: seq<byte>)
    requires buf <= all && HeaderEnd(buf, 0).Some?
    ensures HeaderEnd(all, 0) == HeaderEnd(buf, 0)
  {
    var i := HeaderEnd(buf, 0).value - 4;
    assert Blank(all, i);
    assert forall j: nat | j < i :: Blank(all, j) ==> Blank(buf, j);
    var end := HeaderEnd(all, 0);
    assert end.Some?;
    assert Blank(all, end.value - 4);
  }

  // Bodies with a known end ------------------------------------------------------

  method ReadContentLengthBody(reader: TcpReader, start: seq<byte>, len: nat) returns (r: Option<seq<byte>>)
    modifies reader
    ensures var stream := start + old(reader.data);
      r == if len <= MAX_BODY_BYTES && len <= |stream| then Some(stream[..len]) else None
  {
    if len > MAX_BODY_BYTES { return None; }
    var body := start;
    while |body| < len
      invariant body + reader.data == start + old(reader.data)
      decreases len - |body|
    {
      var more := ReadMore(reader, body, len);
      if more.None? { return None; }
      body := more.value;
    }
    assert (body + reader.data)[..len] == body[..len];
    return Some(body[..len]);
  }

  method ReadUntilEofLimited(reader: TcpReader, start: seq<byte>) returns (r: Option<seq<byte>>)
    modifies reader
    ensures var stream := start + old(reader.data);
      r == if |stream| <= MAX_BODY_BYTES then Some(stream) else None
  {
    var body := start;
    while true
      invariant body + reader.data == start + old(reader.data)
      decreases |reader.data|
    {
      if |body| > MAX_BODY_BYTES { return None; }
      var room := MAX_BODY_BYTES - |body|;
      var chunk := new byte[if room == 0 then 1 else if room < READ_CHUNK then room else READ_CHUNK];
      ghost var data := reader.data;
      var n := reader.Read(chunk);
      if n == 0 {
        assert body + [] == body;
        return Some(body);
      }
      if |body| + n > MAX_BODY_BYTES { return None; }
      assert (body + chunk[..n]) + data[n..] == body + data;
      body := body + chunk[..n];
    }
  }

  // Chunked bodies (section 7.1 of RFC 9112) --------------------------------------

  predicate CrlfAt(s: seq<byte>, i: nat) {
    i + 2 <= |s| && s[i] == CR && s[i + 1] == LF
  }

  function FindCrlf(s: seq<byte>, from: nat): (at: Option<nat>)
    ensures at.Some? ==> from <= at.value && at.value + 2 <= |s| && CrlfAt(s, at.value)
    ensures forall i: nat | from <= i && (at.None? || i < at.value) :: !CrlfAt(s, i)
    decreases |s| - from
  {
    if from + 2 > |s| then None
    else if CrlfAt(s, from) then Some(from)
    else FindCrlf(s, from + 1)
  }

  /** The value of a chunk-size line, or none where the decoder rejects the line. */
  type Sizes = seq<byte> -> Option<nat>

  /** A whole body with the trailers starting at `trailers` and ending at `end`; an error; or not all there yet. */
  datatype Parsed = Done(body: seq<byte>, trailers: nat, end: nat) | Bad | More {
    function Behind(front: seq<byte>): Parsed {
      if Done? then Done(front + body, trailers, end) else this
    }
  }

  /** Where the blank line behind the trailers ends. */
  function TrailersEnd(s: seq<byte>, pos: nat): (end: Option<nat>)
    ensures end.Some? ==> pos + 2 <= end.value <= |s|
    decreases |s| - pos
  {
    var at := FindCrlf(s, pos);
    if at.None? then None
    else if at.value == pos then Some(pos + 2)
    else TrailersEnd(s, at.value + 2)
  }

  /** The one-shot decoder, from `pos`, with `decoded` bytes of payload behind it. */
  function Parse(sizes: Sizes, s: seq<byte>, pos: nat, decoded: nat): (r: Parsed)
    requires pos <= |s|
    ensures r.Done? ==> pos <= r.trailers <= r.end <= |s|
    decreases |s| - pos
  {
    var line := FindCrlf(s, pos);
    if line.None? then More
    else
      var size, data := sizes(s[pos..line.value]), line.value + 2;
      if size.None? then Bad
      else if size.value == 0 then
        var end := TrailersEnd(s, data);
        if end.None? then More else Done([], data, end.value)
      else if decoded + size.value > MAX_BODY_BYTES then Bad
      else if |s| < data + size.value + 2 then More
      else if !CrlfAt(s, data + size.value) then Bad
      else Parse(sizes, s, data + size.value + 2, decoded + size.value).Behind(s[data..data + size.value])
  }

  lemma {:induction false} FindCrlfMonotone(s: seq<byte>, more: seq<byte>, from: nat)
    requires FindCrlf(s, from).Some?
    ensures FindCrlf(s + more, from) == FindCrlf(s, from)
    decreases |s| - from
  {
    assert CrlfAt(s, from) == CrlfAt(s + more, from);
    if !CrlfAt(s, from) { FindCrlfMonotone(s, more, from + 1); }
  }

  lemma {:induction false} TrailersMonotone(s: seq<byte>, more: seq<byte>, pos: nat)
    requires TrailersEnd(s, pos).Some?
    ensures TrailersEnd(s + more, pos) == TrailersEnd(s, pos)
    decreases |s| - pos
  {
    hide FindCrlf;
    FindCrlfMonotone(s, more, pos);
    var at := FindCrlf(s, pos);
    if at.value != pos { TrailersMonotone(s, more, at.value + 2); }
  }

  /** Bytes that arrive later never change a verdict already reached. */
  lemma {:induction false} ParseMonotone(sizes: Sizes, s: seq<byte>, more: seq<byte>, pos: nat, decoded: nat)
    requires pos <= |s| && !Parse(sizes, s, pos, decoded).More?
    ensures Parse(sizes, s + more, pos, decoded) == Parse(sizes, s, pos, decoded)
    decreases |s| - pos
  {
    hide FindCrlf, TrailersEnd, Parse, CrlfAt;
    ParseUnfolds(sizes, s, pos, decoded);
    ParseUnfolds(sizes, s + more, pos, decoded);
    FindCrlfMonotone(s, more, pos);
    var line := FindCrlf(s, pos);
    assert (s + more)[pos..line.value] == s[pos..line.value];
    var size, data := sizes(s[pos..line.value]), line.value + 2;
    if size.Some? {
      if size.value == 0 {
        TrailersMonotone(s, more, data);
      } else if decoded + size.value <= MAX_BODY_BYTES {
        var next := data + size.value + 2;
        assert (s + more)[data..data + size.value] == s[data..data + size.value];
        CrlfMonotone(s, more, data + size.value);
        if CrlfAt(s, data + size.value) { ParseMonotone(sizes, s, more, next, decoded + size.value); }
      }
    }
  }

  lemma CrlfMonotone(s: seq<byte>, more: seq<byte>, i: nat)
    requires i + 2 <= |s|
    ensures CrlfAt(s + more, i) == CrlfAt(s, i)
  {}

  // Size lines ------------------------------------------------------------------------

  const USIZE: nat := 0x1_0000_0000_0000_0000
  const SEMICOLON: byte := 59
  const PLUS: byte := 43

  function HexDigit(b: byte): (d: Option<nat>)
    ensures d.Some? ==> d.value < 16
  {
    if 48 <= b <= 57 then Some(b - 48)
    else if 65 <= b <= 70 then Some(b - 55)
    else if 97 <= b <= 102 then Some(b - 87)
    else None
  }

  function HexValue(s: seq<byte>): (v: Option<nat>) {
    if s == [] then Some(0)
    else
      var last := |s| - 1;
      var front, d := HexValue(s[..last]), HexDigit(s[last]);
      if front.None? || d.None? then None else Some(16 * front.value + d.value)
  }

  /** `usize::from_str_radix` in base 16: an optional plus, at least one digit, no overflow. */
  function FromRadix16(s: seq<byte>): Option<nat> {
    var digits := if s != [] && s[0] == PLUS then s[1..] else s;
    var v := HexValue(digits);
    if digits == [] || v.None? || v.value >= USIZE then None else v
  }

  predicate Space(b: byte) { 9 <= b <= 13 || b == 32 }

  function Trim(s: seq<byte>): seq<byte> {
    if s == [] then []
    else if Space(s[0]) then Trim(s[1..])
    else if Space(s[|s| - 1]) then Trim(s[..|s| - 1])
    else s
  }

  /** The line up to its first semicolon. */
  function BeforeExtension(s: seq<byte>): seq<byte> {
    if s == [] || s[0] == SEMICOLON then [] else [s[0]] + BeforeExtension(s[1..])
  }

  /** How the decoder reads a size line; `utf8` says which lines are valid text at all. */
  function SizeOf(utf8: seq<byte> -> bool, line: seq<byte>): Option<nat> {
    if utf8(line) then FromRadix16(Trim(BeforeExtension(line))) else None
  }

  function Hex(n: nat): (s: seq<byte>)
    ensures s != []
  {
    (if n < 16 then [] else Hex(n / 16)) + [LowerHex(n % 16)]
  }

  function LowerHex(d: nat): (c: byte)
    requires d < 16
    ensures HexDigit(c) == Some(d)
  {
    if d < 10 then 48 + d else 87 + d
  }

  lemma {:induction false} HexIsRead(n: nat)
    ensures HexValue(Hex(n)) == Some(n)
    ensures forall b | b in Hex(n) :: HexDigit(b).Some?
  {
    hide HexDigit, LowerHex;
    var c, front := LowerHex(n % 16), if n < 16 then [] else Hex(n / 16);
    assert Hex(n) == front + [c];
    assert (front + [c])[..|front|] == front;
    if n >= 16 { HexIsRead(n / 16); }
  }

  lemma {:induction false} ExtensionIsCut(s: seq<byte>, ext: seq<byte>)
    requires SEMICOLON !in s && (ext == [] || ext[0] == SEMICOLON)
    ensures BeforeExtension(s + ext) == s
  {
    if s == [] {
      assert s + ext == ext;
    } else {
      assert (s + ext)[1..] == s[1..] + ext;
      ExtensionIsCut(s[1..], ext);
    }
  }

  predicate AllBlank(s: seq<byte>) { forall b | b in s :: Space(b) }

  /**
   * A size line is read as the value of its digits: in either case, with leading zeros, a sign, blanks
   * around them and chunk extensions behind.
   */
  lemma HexSizesAreRead(utf8: seq<byte> -> bool, before: seq<byte>, sign: seq<byte>, digits: seq<byte>,
                        after: seq<byte>, ext: seq<byte>)
    requires AllBlank(before) && AllBlank(after) && (sign == [] || sign == [PLUS]) && (ext == [] || ext[0] == SEMICOLON)
    requires digits != [] && HexValue(digits).Some? && HexValue(digits).value < USIZE
    requires utf8(before + (sign + digits) + after + ext)
    ensures SizeOf(utf8, before + (sign + digits) + after + ext) == HexValue(digits)
  {
    hide HexValue, HexDigit, Trim, BeforeExtension, Space;
    AllDigits(digits);
    var core := sign + digits;
    assert digits[0] in digits && digits[|digits| - 1] in digits;
    NotADigit(digits[0]);
    NotADigit(digits[|digits| - 1]);
    NotADigit(PLUS);
    assert !Space(core[0]) && !Space(core[|core| - 1]);
    forall b | b in before + core + after ensures b != SEMICOLON { NotADigit(b); }
    ExtensionIsCut(before + core + after, ext);
    Trimmed(before, core, after);
    assert sign == [PLUS] ==> core[1..] == digits;
    assert sign == [] ==> core == digits;
  }

  lemma {:induction false} AllDigits(digits: seq<byte>)
    requires HexValue(digits).Some?
    ensures forall b | b in digits :: HexDigit(b).Some?
  {
    hide HexDigit;
    if digits != [] {
      var last := |digits| - 1;
      AllDigits(digits[..last]);
      assert digits == digits[..last] + [digits[last]];
    }
  }

  lemma NotADigit(b: byte)
    ensures Space(b) || b == PLUS || b == SEMICOLON || b == CR || b == LF ==> HexDigit(b).None?
    ensures Space(b) ==> b != SEMICOLON && b != PLUS
    ensures !Space(PLUS) && PLUS != SEMICOLON
  {}

  /** Blanks at both ends are trimmed. */
  lemma {:induction false} Trimmed(before: seq<byte>, core: seq<byte>, after: seq<byte>)
    requires AllBlank(before) && AllBlank(after)
    requires core != [] && !Space(core[0]) && !Space(core[|core| - 1])
    ensures Trim(before + core + after) == core
    decreases |before| + |after|
  {
    hide Space;
    var s := before + core + after;
    if before != [] {
      assert before[0] in before;
      WithoutFirst(before, core, after);
      assert forall b | b in before[1..] :: b in before;
      Trimmed(before[1..], core, after);
    } else if after != [] {
      var last := |after| - 1;
      assert after[last] in after && s[0] == core[0];
      WithoutLast(core, after);
      assert before + core + after == core + after && before + core + after[..last] == core + after[..last];
      assert forall b | b in after[..last] :: b in after;
      Trimmed(before, core, after[..last]);
    } else {
      assert s == core;
    }
  }

  lemma WithoutFirst(a: seq<byte>, b: seq<byte>, c: seq<byte>)
    requires a != []
    ensures (a + b + c)[0] == a[0] && (a + b + c)[1..] == a[1..] + b + c
  {}

  lemma WithoutLast(a: seq<byte>, b: seq<byte>)
    requires b != []
    ensures var s := a + b; s[|s| - 1] == b[|b| - 1] && s[..|s| - 1] == a + b[..|b| - 1]
  {}

  // Where reads land -----------------------------------------------------------------

  /**
   * Whether growing a buffer of `len` bytes, with `rest` more to come in `cuts`, stops at a length
   * from `lo` up to `hi` on its way to `hi`.
   */
  predicate Lands(len: nat, rest: nat, cuts: seq<nat>, lo: nat, hi: nat)
    decreases rest
  {
    len < hi
    && (lo <= len
        || (0 < rest && len < MAX_BODY_BYTES
            && var n := Taken(cuts, Room(len, MAX_BODY_BYTES), rest);
              Lands(len + n, rest - n, Later(cuts), lo, hi)))
  }

  lemma LandsUnfolds(len: nat, rest: nat, cuts: seq<nat>, lo: nat, hi: nat)
    ensures lo <= len < hi ==> Lands(len, rest, cuts, lo, hi)
    ensures len >= hi ==> !Lands(len, rest, cuts, lo, hi)
    ensures len < lo && len < hi && len < MAX_BODY_BYTES && rest > 0 ==>
      var n := Taken(cuts, Room(len, MAX_BODY_BYTES), rest);
      Lands(len, rest, cuts, lo, hi) == Lands(len + n, rest - n, Later(cuts), lo, hi)
  {}

  // Reading chunks ----------------------------------------------------------------

  /** Where a buffer stands within what the stream shows of a body. */
  ghost predicate Holds(body: seq<byte>, rest: seq<byte>, all: seq<byte>) {
    |body| <= MAX_BODY_BYTES && body <= all && Visible(body + rest, MAX_BODY_BYTES) == all
  }

  /** The reads from one buffer to another decide nothing about where later reads land. */
  ghost predicate SameLanding(len: nat, rest: nat, cuts: seq<nat>, len': nat, rest': nat, cuts': seq<nat>, lo: nat,
                              hi: nat) {
    Lands(len, rest, cuts, lo, hi) == Lands(len', rest', cuts', lo, hi)
  }

  /**
   * Read until `body` has a line end behind `pos`; fails only where the stream shows none. Up to
   * the end of the line no read lands between `lo` and `hi`, if both lie behind it.
   */
  method ReadLine(reader: TcpReader, start: seq<byte>, pos: nat, ghost all: seq<byte>, ghost lo: nat, ghost hi: nat)
    returns (r: Option<(nat, seq<byte>)>)
    requires Holds(start, reader.data, all)
    modifies reader
    ensures r.None? ==> FindCrlf(all, pos).None?
    ensures r.Some? ==> start <= r.value.1 && Holds(r.value.1, reader.data, all)
    ensures r.Some? ==> FindCrlf(all, pos) == Some(r.value.0) && r.value.0 + 2 <= |r.value.1|
    ensures r.Some? && r.value.0 + 2 <= lo && r.value.0 + 2 <= hi ==>
      SameLanding(|start|, |old(reader.data)|, old(reader.cuts), |r.value.1|, |reader.data|, reader.cuts, lo, hi)
  {
    hide FindCrlf, Lands;
    var body := start;
    while true
      invariant start <= body && Holds(body, reader.data, all)
      invariant var end := FindCrlf(all, pos);
        end.Some? && end.value + 2 <= lo && end.value + 2 <= hi ==>
          SameLanding(|start|, |old(reader.data)|, old(reader.cuts), |body|, |reader.data|, reader.cuts, lo, hi)
      decreases MAX_BODY_BYTES - |body|
    {
      NoMore(body, reader.data, MAX_BODY_BYTES);
      var end := FindCrlf(body, pos);
      if end.Some? {
        FindCrlfMonotone(body, all[|body|..], pos);
        assert body + all[|body|..] == all;
        return Some((end.value, body));
      }
      NotYet(body, all, pos);
      LandsUnfolds(|body|, |reader.data|, reader.cuts, lo, hi);
      var more := ReadMore(reader, body, MAX_BODY_BYTES);
      if more.None? { return None; }
      NoMore(more.value, reader.data, MAX_BODY_BYTES);
      body := more.value;
    }
  }

  lemma NotYet(body: seq<byte>, all: seq<byte>, pos: nat)
    requires body <= all && FindCrlf(body, pos).None?
    ensures FindCrlf(all, pos).Some? ==> FindCrlf(all, pos).value + 2 > |body|
  {
    hide FindCrlf;
    var at := FindCrlf(all, pos);
    if at.Some? { assert CrlfAt(body, at.value) == (at.value + 2 <= |body|); }
  }

  /** Read until `body` holds `len` bytes; fails only where the stream shows fewer. */
  method ReadAtLeast(reader: TcpReader, start: seq<byte>, len: nat, ghost all: seq<byte>, ghost lo: nat, ghost hi: nat)
    returns (r: Option<seq<byte>>)
    requires Holds(start, reader.data, all)
    modifies reader
    ensures r.Some? <==> len <= |all|
    ensures r.Some? ==> start <= r.value && |r.value| >= len && Holds(r.value, reader.data, all)
    ensures r.Some? && len <= lo && len <= hi ==>
      SameLanding(|start|, |old(reader.data)|, old(reader.cuts), |r.value|, |reader.data|, reader.cuts, lo, hi)
  {
    hide Lands;
    var body := start;
    while |body| < len
      invariant start <= body && Holds(body, reader.data, all)
      invariant len <= lo && len <= hi ==>
        SameLanding(|start|, |old(reader.data)|, old(reader.cuts), |body|, |reader.data|, reader.cuts, lo, hi)
      decreases MAX_BODY_BYTES - |body|
    {
      NoMore(body, reader.data, MAX_BODY_BYTES);
      LandsUnfolds(|body|, |reader.data|, reader.cuts, lo, hi);
      var more := ReadMore(reader, body, MAX_BODY_BYTES);
      if more.None? { return None; }
      NoMore(more.value, reader.data, MAX_BODY_BYTES);
      body := more.value;
    }
    return Some(body);
  }

  /**
   * Read past the trailers. They are refused exactly when a read lands at least the limit behind
   * their start and still in front of their end.
   */
  method ReadChunkTrailers(reader: TcpReader, start: seq<byte>, trailers: nat, ghost all: seq<byte>) returns (ok: bool)
    requires Holds(start, reader.data, all) && trailers <= |start|
    modifies reader
    ensures var end := TrailersEnd(all, trailers);
      ok <==> end.Some? && !Lands(|start|, |old(reader.data)|, old(reader.cuts), trailers + MAX_HEADER_BYTES, end.value)
  {
    hide FindCrlf, Lands;
    ghost var end, lo := TrailersEnd(all, trailers), trailers + MAX_HEADER_BYTES;
    var body, pos := start, trailers;
    while true
      invariant start <= body && Holds(body, reader.data, all) && trailers <= pos <= |body|
      invariant TrailersEnd(all, pos) == end
      invariant end.Some? ==>
        SameLanding(|start|, |old(reader.data)|, old(reader.cuts), |body|, |reader.data|, reader.cuts, lo, end.value)
      decreases MAX_BODY_BYTES - pos
    {
      var lineEnd;
      ok, body, lineEnd := ReadTrailerLine(reader, body, trailers, pos, all);
      if !ok { return; }
      if lineEnd == pos {
        LandsUnfolds(|body|, |reader.data|, reader.cuts, lo, end.value);
        return true;
      }
      pos := lineEnd + 2;
    }
  }

  /** The inner loop: one trailer line, within the limit. */
  method ReadTrailerLine(reader: TcpReader, start: seq<byte>, trailers: nat, pos: nat, ghost all: seq<byte>)
    returns (ok: bool, body: seq<byte>, lineEnd: nat)
    requires Holds(start, reader.data, all) && trailers <= pos <= |start|
    modifies reader
    ensures start <= body && Holds(body, reader.data, all)
    ensures ok ==> FindCrlf(all, pos) == Some(lineEnd) && lineEnd + 2 <= |body|
    ensures var end, lo := TrailersEnd(all, pos), trailers + MAX_HEADER_BYTES;
      if ok then
        end.Some? ==>
          SameLanding(|start|, |old(reader.data)|, old(reader.cuts), |body|, |reader.data|, reader.cuts, lo, end.value)
      else end.None? || Lands(|start|, |old(reader.data)|, old(reader.cuts), lo, end.value)
  {
    hide FindCrlf, Lands;
    ghost var hi, lo := TrailersEnd(all, pos), trailers + MAX_HEADER_BYTES;
    body, lineEnd := start, pos;
    while true
      invariant start <= body && Holds(body, reader.data, all)
      invariant hi.Some? ==>
        SameLanding(|start|, |old(reader.data)|, old(reader.cuts), |body|, |reader.data|, reader.cuts, lo, hi.value)
      decreases MAX_BODY_BYTES - |body|
    {
      NoMore(body, reader.data, MAX_BODY_BYTES);
      assert body + all[|body|..] == all;
      var end := FindCrlf(body, pos);
      if end.Some? {
        FindCrlfMonotone(body, all[|body|..], pos);
        return true, body, end.value;
      }
      if hi.Some? {
        EndsLater(body, all, pos);
        LandsUnfolds(|body|, |reader.data|, reader.cuts, lo, hi.value);
      }
      if |body| - trailers >= MAX_HEADER_BYTES { return false, body, pos; }
      var more := ReadMore(reader, body, MAX_BODY_BYTES);
      if more.None? { return false, body, pos; }
      NoMore(more.value, reader.data, MAX_BODY_BYTES);
      body := more.value;
    }
  }

  /** Trailers whose current line is not all there end behind the buffer. */
  lemma EndsLater(body: seq<byte>, all: seq<byte>, pos: nat)
    requires body <= all && FindCrlf(body, pos).None? && TrailersEnd(all, pos).Some?
    ensures TrailersEnd(all, pos).value > |body|
  {
    hide FindCrlf;
    var at := FindCrlf(all, pos);
    assert CrlfAt(body, at.value) == (at.value + 2 <= |body|);
  }

  /** A size line, and where the data behind it starts; fails only where the stream shows no readable one. */
  method ReadSize(reader: TcpReader, start: seq<byte>, pos: nat, sizes: Sizes, ghost all: seq<byte>, ghost lo: nat,
                  ghost hi: nat)
    returns (r: Option<(nat, nat, seq<byte>)>)
    requires Holds(start, reader.data, all) && pos <= |start|
    modifies reader
    ensures r.None? ==> FindCrlf(all, pos).None? || sizes(all[pos..FindCrlf(all, pos).value]).None?
    ensures r.Some? ==>
      && start <= r.value.2 && Holds(r.value.2, reader.data, all) && pos + 2 <= r.value.1 <= |r.value.2|
      && FindCrlf(all, pos) == Some(r.value.1 - 2) && sizes(all[pos..r.value.1 - 2]) == Some(r.value.0)
    ensures r.Some? && r.value.1 <= lo && r.value.1 <= hi ==>
      SameLanding(|start|, |old(reader.data)|, old(reader.cuts), |r.value.2|, |reader.data|, reader.cuts, lo, hi)
  {
    hide FindCrlf, Lands;
    var line := ReadLine(reader, start, pos, all, lo, hi);
    if line.None? { return None; }
    var (end, body) := line.value;
    assert all[pos..end] == body[pos..end];
    var size := sizes(body[pos..end]);
    return if size.None? then None else Some((size.value, end + 2, body));
  }

  /** The payload of one chunk, with the line end that has to follow it. */
  method ReadChunk(reader: TcpReader, start: seq<byte>, data: nat, size: nat, ghost all: seq<byte>, ghost lo: nat,
                   ghost hi: nat)
    returns (r: Option<(seq<byte>, seq<byte>)>)
    requires Holds(start, reader.data, all) && data <= |start|
    modifies reader
    ensures r.Some? <==> data + size + 2 <= |all| && CrlfAt(all, data + size)
    ensures r.Some? ==>
      && r.value.0 == all[data..data + size]
      && start <= r.value.1 && Holds(r.value.1, reader.data, all) && data + size + 2 <= |r.value.1|
    ensures r.Some? && data + size + 2 <= lo && data + size + 2 <= hi ==>
      SameLanding(|start|, |old(reader.data)|, old(reader.cuts), |r.value.1|, |reader.data|, reader.cuts, lo, hi)
  {
    hide Lands;
    var more := ReadAtLeast(reader, start, data + size + 2, all, lo, hi);
    if more.None? { return None; }
    var body := more.value;
    if !CrlfAt(body, data + size) { return None; }
    return Some((body[data..data + size], body));
  }

  /**
   * What a chunked body comes to in these cuts: the payload of the one-shot decoder over the first
   * 256 KiB of the stream, unless a read lands so far behind the start of the trailers that their
   * limit strikes in front of their end.
   */
  function Decoded(sizes: Sizes, start: seq<byte>, data: seq<byte>, cuts: seq<nat>): (body: Option<seq<byte>>) {
    var parsed := Parse(sizes, Visible(start + data, MAX_BODY_BYTES), 0, 0);
    if parsed.Done? && !Lands(|start|, |data|, cuts, parsed.trailers + MAX_HEADER_BYTES, parsed.end)
    then Some(parsed.body)
    else None
  }

  /** Read a chunked body, from a buffer with what came behind the headers. */
  method ReadChunkedBody(reader: TcpReader, start: seq<byte>, sizes: Sizes) returns (r: Option<seq<byte>>)
    requires |start| <= MAX_BODY_BYTES
    modifies reader
    ensures r == Decoded(sizes, start, old(reader.data), old(reader.cuts))
  {
    hide *;
    ghost var all := Visible(start + reader.data, MAX_BODY_BYTES);
    NoMore(start, reader.data, MAX_BODY_BYTES);
    HoldsIs(start, reader.data, all);
    ghost var parsed := Parse(sizes, all, 0, 0);
    ghost var lo := if parsed.Done? then parsed.trailers + MAX_HEADER_BYTES else 0;
    ghost var hi := if parsed.Done? then parsed.end else 0;
    DecodedIs(sizes, start, reader.data, reader.cuts);
    var decoded, pos, body := [], 0, start;
    BehindNothing(parsed);
    SameIs(|start|, |reader.data|, reader.cuts, |start|, |reader.data|, reader.cuts, lo, hi);
    while true
      invariant Holds(body, reader.data, all) && pos <= |body| <= |all| && |body| <= MAX_BODY_BYTES
      invariant |decoded| <= MAX_BODY_BYTES && parsed == Parse(sizes, all, pos, |decoded|).Behind(decoded)
      invariant parsed.Done? ==>
        SameLanding(|start|, |old(reader.data)|, old(reader.cuts), |body|, |reader.data|, reader.cuts, lo, hi)
      decreases MAX_BODY_BYTES - pos
    {
      ghost var len, rest, cuts := |body|, |reader.data|, reader.cuts;
      var announced := ReadSize(reader, body, pos, sizes, all, lo, hi);
      if announced.None? {
        NoSize(sizes, all, pos, decoded);
        return None;
      }
      var (size, data, grown) := announced.value;
      HoldsIs(grown, reader.data, all);
      if size == 0 {
        LastSize(sizes, all, pos, decoded, data);
        SameIs(|start|, |old(reader.data)|, old(reader.cuts), |grown|, |reader.data|, reader.cuts, lo, hi);
        SameIs(|start|, |old(reader.data)|, old(reader.cuts), len, rest, cuts, lo, hi);
        SameIs(len, rest, cuts, |grown|, |reader.data|, reader.cuts, lo, hi);
        var ok := ReadChunkTrailers(reader, grown, data, all);
        return if ok then Some(decoded) else None;
      }
      NextSize(sizes, all, pos, decoded, data, size);
      if |decoded| + size > MAX_BODY_BYTES { return None; }
      ghost var len', rest', cuts' := |grown|, |reader.data|, reader.cuts;
      var chunk := ReadChunk(reader, grown, data, size, all, lo, hi);
      if chunk.None? { return None; }
      body := chunk.value.1;
      HoldsIs(body, reader.data, all);
      SameIs(|start|, |old(reader.data)|, old(reader.cuts), len, rest, cuts, lo, hi);
      SameIs(len, rest, cuts, len', rest', cuts', lo, hi);
      SameIs(len', rest', cuts', |body|, |reader.data|, reader.cuts, lo, hi);
      SameIs(|start|, |old(reader.data)|, old(reader.cuts), |body|, |reader.data|, reader.cuts, lo, hi);
      OneChunk(sizes, all, pos, decoded, data - 2, size, chunk.value.0);
      pos := data + size + 2;
      decoded := decoded + chunk.value.0;
    }
  }

  lemma HoldsIs(body: seq<byte>, rest: seq<byte>, all: seq<byte>)
    ensures Holds(body, rest, all) <==>
      |body| <= MAX_BODY_BYTES && body <= all && Visible(body + rest, MAX_BODY_BYTES) == all
    ensures MAX_BODY_BYTES > MAX_HEADER_BYTES > 0
  {}

  lemma SameIs(len: nat, rest: nat, cuts: seq<nat>, len': nat, rest': nat, cuts': seq<nat>, lo: nat, hi: nat)
    ensures SameLanding(len, rest, cuts, len', rest', cuts', lo, hi) <==>
      Lands(len, rest, cuts, lo, hi) == Lands(len', rest', cuts', lo, hi)
  {
    hide Lands;
  }

  lemma DecodedIs(sizes: Sizes, start: seq<byte>, data: seq<byte>, cuts: seq<nat>)
    ensures var parsed := Parse(sizes, Visible(start + data, MAX_BODY_BYTES), 0, 0);
      Decoded(sizes, start, data, cuts) ==
      if parsed.Done? && !Lands(|start|, |data|, cuts, parsed.trailers + MAX_HEADER_BYTES, parsed.end)
      then Some(parsed.body)
      else None
  {
    hide Parse, Visible, Lands;
  }

  /** Without a readable size line there is no whole body. */
  lemma NoSize(sizes: Sizes, s: seq<byte>, pos: nat, decoded: seq<byte>)
    requires pos <= |s| && (FindCrlf(s, pos).None? || sizes(s[pos..FindCrlf(s, pos).value]).None?)
    ensures !Parse(sizes, s, pos, |decoded|).Behind(decoded).Done?
  {
    hide FindCrlf, TrailersEnd, CrlfAt;
  }

  /** A zero size line is followed by the trailers, and they end the body. */
  lemma LastSize(sizes: Sizes, s: seq<byte>, pos: nat, decoded: seq<byte>, data: nat)
    requires pos <= |s| && data >= 2 && FindCrlf(s, pos) == Some(data - 2) && sizes(s[pos..data - 2]) == Some(0)
    ensures Parse(sizes, s, pos, |decoded|).Behind(decoded) ==
      if TrailersEnd(s, data).None? then More else Done(decoded, data, TrailersEnd(s, data).value)
  {
    hide FindCrlf, TrailersEnd, CrlfAt;
    assert decoded + [] == decoded;
  }

  /** Any other is followed by that much data, in front of the trailers of a whole body. */
  lemma NextSize(sizes: Sizes, s: seq<byte>, pos: nat, decoded: seq<byte>, data: nat, size: nat)
    requires pos <= |s| && data >= 2 && FindCrlf(s, pos) == Some(data - 2) && sizes(s[pos..data - 2]) == Some(size)
    requires size > 0
    ensures var parsed := Parse(sizes, s, pos, |decoded|).Behind(decoded);
      parsed.Done? ==>
        && |decoded| + size <= MAX_BODY_BYTES && data + size + 2 <= |s| && CrlfAt(s, data + size)
        && data + size + 2 <= parsed.trailers <= parsed.end
  {
    hide FindCrlf, TrailersEnd, Parse, CrlfAt, Parsed.Behind;
    ParseUnfolds(sizes, s, pos, |decoded|);
    BehindKeeps(Parse(sizes, s, pos, |decoded|), decoded);
    var next := data + size + 2;
    if |decoded| + size <= MAX_BODY_BYTES && next <= |s| {
      BehindKeeps(Parse(sizes, s, next, |decoded| + size), s[data..data + size]);
    }
  }

  lemma BehindKeeps(p: Parsed, front: seq<byte>)
    ensures p.Behind(front).Done? == p.Done?
    ensures p.Done? ==> p.Behind(front) == Done(front + p.body, p.trailers, p.end)
    ensures !p.Done? ==> p.Behind(front) == p
  {}

  /** One chunk of payload is behind the decoder. */
  lemma OneChunk(sizes: Sizes, s: seq<byte>, pos: nat, decoded: seq<byte>, line: nat, size: nat, payload: seq<byte>)
    requires pos <= |s| && FindCrlf(s, pos) == Some(line) && sizes(s[pos..line]) == Some(size) && size > 0
    requires |decoded| + size <= MAX_BODY_BYTES && line + 2 + size + 2 <= |s| && CrlfAt(s, line + 2 + size)
    requires payload == s[line + 2..line + 2 + size]
    ensures Parse(sizes, s, pos, |decoded|).Behind(decoded) ==
      Parse(sizes, s, line + 2 + size + 2, |decoded + payload|).Behind(decoded + payload)
  {
    hide FindCrlf, TrailersEnd, Parse, CrlfAt;
    ParseUnfolds(sizes, s, pos, |decoded|);
    BehindTwice(Parse(sizes, s, line + 2 + size + 2, |decoded| + size), payload, decoded);
  }

  lemma BehindNothing(p: Parsed)
    ensures p.Behind([]) == p
  {
    if p.Done? { assert [] + p.body == p.body; }
  }

  lemma BehindTwice(p: Parsed, inner: seq<byte>, outer: seq<byte>)
    ensures p.Behind(inner).Behind(outer) == p.Behind(outer + inner)
  {
    if p.Done? { Assoc(outer, inner, p.body); }
  }

  lemma ParseUnfolds(sizes: Sizes, s: seq<byte>, pos: nat, decoded: nat)
    requires pos <= |s|
    ensures Parse(sizes, s, pos, decoded) ==
      var line := FindCrlf(s, pos);
      if line.None? then More
      else
        var size, data := sizes(s[pos..line.value]), line.value + 2;
        if size.None? then Bad
        else if size.value == 0 then
          var end := TrailersEnd(s, data);
          if end.None? then More else Done([], data, end.value)
        else if decoded + size.value > MAX_BODY_BYTES then Bad
        else if |s| < data + size.value + 2 then More
        else if !CrlfAt(s, data + size.value) then Bad
        else Parse(sizes, s, data + size.value + 2, decoded + size.value).Behind(s[data..data + size.value])
  {
    hide FindCrlf, TrailersEnd, CrlfAt;
  }

  // Encoding ------------------------------------------------------------------------

  /** A chunk with the size line it is announced by: any line the decoder reads as its length. */
  datatype Chunk = Chunk(line: seq<byte>, payload: seq<byte>)

  /** A whole body: its chunks, the line of the last, empty chunk, and the trailer lines. */
  datatype Chunked = Chunked(chunks: seq<Chunk>, last: seq<byte>, trailers: seq<seq<byte>>) {
    predicate Ok(sizes: Sizes) {
      && (forall c | c in chunks :: c.payload != [] && OneLine(c.line) && sizes(c.line) == Some(|c.payload|))
      && OneLine(last) && sizes(last) == Some(0)
      && forall l | l in trailers :: l != [] && OneLine(l)
    }
  }

  /** A line does not contain the line end that closes it. */
  predicate OneLine(line: seq<byte>) {
    forall i | 0 <= i < |line| :: !CrlfAt(line, i)
  }

  function Payloads(chunks: seq<Chunk>): seq<byte> {
    if chunks == [] then [] else chunks[0].payload + Payloads(chunks[1..])
  }

  function EncodeChunks(chunks: seq<Chunk>): seq<byte> {
    if chunks == [] then []
    else (chunks[0].line + CRLF) + (chunks[0].payload + CRLF) + EncodeChunks(chunks[1..])
  }

  function EncodeTrailers(lines: seq<seq<byte>>): seq<byte> {
    if lines == [] then CRLF else (lines[0] + CRLF) + EncodeTrailers(lines[1..])
  }

  function Encode(c: Chunked): seq<byte> {
    EncodeChunks(c.chunks) + ((c.last + CRLF) + EncodeTrailers(c.trailers))
  }

  /** The first line end behind `pos` closes the line written there. */
  lemma {:induction false} LineIsFound(s: seq<byte>, pos: nat, line: seq<byte>)
    requires OneLine(line) && pos + |line| + 2 <= |s| && s[pos..pos + |line| + 2] == line + CRLF
    ensures FindCrlf(s, pos) == Some(pos + |line|)
  {
    hide FindCrlf;
    var end := pos + |line|;
    var piece := line + CRLF;
    assert piece[|line|] == CR && piece[|line| + 1] == LF;
    assert forall i | 0 <= i < |piece| :: s[pos + i] == piece[i];
    assert CrlfAt(s, end);
    forall i: nat | pos <= i < end ensures !CrlfAt(s, i) {
      assert s[pos + (i - pos)] == piece[i - pos] && s[pos + (i + 1 - pos)] == piece[i + 1 - pos];
      assert !CrlfAt(line, i - pos);
    }
    FoundFirst(s, pos, end);
  }

  lemma FoundFirst(s: seq<byte>, pos: nat, end: nat)
    requires pos <= end && CrlfAt(s, end) && forall i: nat | pos <= i < end :: !CrlfAt(s, i)
    ensures FindCrlf(s, pos) == Some(end)
  {
    assert FindCrlf(s, pos).Some?;
  }

  lemma {:induction false} TrailersAreFound(s: seq<byte>, pos: nat, lines: seq<seq<byte>>)
    requires forall l | l in lines :: l != [] && OneLine(l)
    requires pos <= |s| && EncodeTrailers(lines) <= s[pos..]
    ensures TrailersEnd(s, pos) == Some(pos + |EncodeTrailers(lines)|)
    decreases |lines|
  {
    hide *;
    TrailersUnfold(s, pos, lines);
    if lines == [] {
      CrlfAlone(s, pos);
    } else {
      var line, rest := lines[0], lines[1..];
      assert line in lines && forall l | l in rest :: l in lines;
      Front(s, pos, line + CRLF, EncodeTrailers(rest));
      LineIsFound(s, pos, line);
      TrailersAreFound(s, pos + |line| + 2, rest);
    }
  }

  lemma CrlfAlone(s: seq<byte>, pos: nat)
    requires pos <= |s| && CRLF <= s[pos..]
    ensures FindCrlf(s, pos) == Some(pos)
  {
    hide FindCrlf;
    assert s[pos..][0] == s[pos] && s[pos..][1] == s[pos + 1];
    FoundFirst(s, pos, pos);
  }

  lemma TrailersUnfold(s: seq<byte>, pos: nat, lines: seq<seq<byte>>)
    ensures |CRLF| == 2
    ensures EncodeTrailers(lines) == if lines == [] then CRLF else (lines[0] + CRLF) + EncodeTrailers(lines[1..])
    ensures TrailersEnd(s, pos) ==
      var at := FindCrlf(s, pos);
      if at.None? then None else if at.value == pos then Some(pos + 2) else TrailersEnd(s, at.value + 2)
    ensures OneLine([])
  {
    hide FindCrlf;
  }

  lemma Front(s: seq<byte>, pos: nat, a: seq<byte>, b: seq<byte>)
    requires pos <= |s| && a + b <= s[pos..]
    ensures pos + |a| <= |s| && s[pos..pos + |a|] == a && b <= s[pos + |a|..]
  {
    assert s[pos..][..|a|] == a;
    assert s[pos + |a|..] == s[pos..][|a|..];
  }

  /** Decoding what was encoded, from any chunk on and whatever follows the body. */
  lemma {:induction false} DecodesFrom(sizes: Sizes, c: Chunked, s: seq<byte>, pos: nat, decoded: nat)
    requires c.Ok(sizes) && pos <= |s| && Encode(c) <= s[pos..]
    requires decoded + |Payloads(c.chunks)| <= MAX_BODY_BYTES
    ensures Parse(sizes, s, pos, decoded) ==
      var end := pos + |Encode(c)|;
      Done(Payloads(c.chunks), end - |EncodeTrailers(c.trailers)|, end)
    decreases |c.chunks|
  {
    hide *;
    ParseUnfolds(sizes, s, pos, decoded);
    if c.chunks == [] {
      LastChunk(sizes, c, s, pos);
      LineIsFound(s, pos, c.last);
      TrailersAreFound(s, pos + |c.last| + 2, c.trailers);
    } else {
      var first, rest := c.chunks[0], c.(chunks := c.chunks[1..]);
      FirstChunk(sizes, c, s, pos);
      LineIsFound(s, pos, first.line);
      var data := pos + |first.line| + 2;
      DecodesFrom(sizes, rest, s, data + |first.payload| + 2, decoded + |first.payload|);
      BehindIs(Payloads(rest.chunks), first.payload);
    }
  }

  lemma BehindIs(body: seq<byte>, front: seq<byte>)
    ensures forall t: nat, e: nat :: Done(body, t, e).Behind(front) == Done(front + body, t, e)
  {}

  lemma LastChunk(sizes: Sizes, c: Chunked, s: seq<byte>, pos: nat)
    requires c.Ok(sizes) && c.chunks == [] && pos <= |s| && Encode(c) <= s[pos..]
    ensures OneLine(c.last) && sizes(c.last) == Some(0) && Payloads(c.chunks) == []
    ensures forall l | l in c.trailers :: l != [] && OneLine(l)
    ensures var next := pos + |c.last| + 2;
      && next <= |s| && s[pos..next] == c.last + CRLF && s[pos..next - 2] == c.last
      && EncodeTrailers(c.trailers) <= s[next..]
      && |Encode(c)| == |c.last| + 2 + |EncodeTrailers(c.trailers)|
  {
    hide OneLine, EncodeTrailers;
    var code := (c.last + CRLF) + EncodeTrailers(c.trailers);
    assert Encode(c) == code;
    var next := pos + |c.last| + 2;
    assert s[pos..next] == s[pos..][..|c.last| + 2];
    assert s[next..] == s[pos..][|c.last| + 2..];
  }

  lemma FirstChunk(sizes: Sizes, c: Chunked, s: seq<byte>, pos: nat)
    requires c.Ok(sizes) && c.chunks != [] && pos <= |s| && Encode(c) <= s[pos..]
    ensures var first, rest := c.chunks[0], c.(chunks := c.chunks[1..]);
      var data := pos + |first.line| + 2;
      var next := data + |first.payload| + 2;
      && first.payload != [] && OneLine(first.line) && sizes(first.line) == Some(|first.payload|)
      && rest.Ok(sizes) && Payloads(c.chunks) == first.payload + Payloads(rest.chunks)
      && next <= |s| && s[pos..data] == first.line + CRLF && s[pos..data - 2] == first.line
      && s[data..data + |first.payload|] == first.payload && CrlfAt(s, data + |first.payload|)
      && Encode(rest) <= s[next..] && |Encode(c)| == next - pos + |Encode(rest)|
  {
    hide OneLine, EncodeTrailers, Payloads;
    var first, rest := c.chunks[0], c.(chunks := c.chunks[1..]);
    assert first in c.chunks && forall d | d in rest.chunks :: d in c.chunks;
    PayloadsUnfold(c.chunks);
    var tail := (c.last + CRLF) + EncodeTrailers(c.trailers);
    var front := (first.line + CRLF) + (first.payload + CRLF);
    Assoc(front, EncodeChunks(rest.chunks), tail);
    assert Encode(c) == front + Encode(rest);
    InFront(s, pos, first.line, first.payload, Encode(rest));
  }

  lemma PayloadsUnfold(chunks: seq<Chunk>)
    requires chunks != []
    ensures Payloads(chunks) == chunks[0].payload + Payloads(chunks[1..])
  {}

  lemma InFront(s: seq<byte>, pos: nat, line: seq<byte>, payload: seq<byte>, rest: seq<byte>)
    requires pos <= |s| && ((line + CRLF) + (payload + CRLF)) + rest <= s[pos..]
    ensures var data := pos + |line| + 2;
      var next := data + |payload| + 2;
      && next <= |s| && s[pos..data] == line + CRLF && s[pos..data - 2] == line
      && s[data..data + |payload|] == payload && CrlfAt(s, data + |payload|)
      && rest <= s[next..]
  {
    var data := pos + |line| + 2;
    var next := data + |payload| + 2;
    var all := ((line + CRLF) + (payload + CRLF)) + rest;
    assert forall i | 0 <= i < |all| :: s[pos + i] == s[pos..][i] == all[i];
    assert s[next..] == s[pos..][next - pos..];
  }

  lemma {:induction false} PayloadsFit(chunks: seq<Chunk>)
    ensures |Payloads(chunks)| <= |EncodeChunks(chunks)|
  {
    if chunks != [] { PayloadsFit(chunks[1..]); }
  }

  /**
   * The round trip: an encoding that fits decodes to its payloads, whatever follows it, and a
   * stream cut off anywhere inside it is never taken for a whole body.
   */
  lemma RoundTrip(sizes: Sizes, c: Chunked, rest: seq<byte>)
    requires c.Ok(sizes) && |Encode(c)| <= MAX_BODY_BYTES
    ensures Parse(sizes, Visible(Encode(c) + rest, MAX_BODY_BYTES), 0, 0) ==
      Done(Payloads(c.chunks), |Encode(c)| - |EncodeTrailers(c.trailers)|, |Encode(c)|)
    ensures forall k: nat | k < |Encode(c)| :: Parse(sizes, Encode(c)[..k], 0, 0) == More
  {
    hide Parse, Payloads, EncodeChunks, EncodeTrailers;
    var code := Encode(c);
    PayloadsFit(c.chunks);
    var all := Visible(code + rest, MAX_BODY_BYTES);
    assert code <= all;
    assert all[0..] == all;
    DecodesFrom(sizes, c, all, 0, 0);
    assert code[0..] == code;
    DecodesFrom(sizes, c, code, 0, 0);
    forall k: nat | k < |code| ensures Parse(sizes, code[..k], 0, 0) == More {
      assert code[..k] + code[k..] == code;
      NotWholeYet(sizes, code[..k], code[k..]);
    }
  }

  lemma NotWholeYet(sizes: Sizes, s: seq<byte>, more: seq<byte>)
    requires Parse(sizes, s + more, 0, 0).Done? && Parse(sizes, s + more, 0, 0).end > |s|
    ensures Parse(sizes, s, 0, 0) == More
  {
    hide Parse;
    if !Parse(sizes, s, 0, 0).More? { ParseMonotone(sizes, s, more, 0, 0); }
  }

  // Bodies with hexadecimal size lines ---------------------------------------------------

  /** A chunk announced by its length in hexadecimal, with extensions behind it. */
  function HexChunk(payload: seq<byte>, ext: seq<byte>): Chunk { Chunk(Hex(|payload|) + ext, payload) }

  /** The chunks of a list of payloads and extensions. */
  function HexChunks(parts: seq<(seq<byte>, seq<byte>)>): (chunks: seq<Chunk>) {
    if parts == [] then [] else [HexChunk(parts[0].0, parts[0].1)] + HexChunks(parts[1..])
  }

  predicate Extension(ext: seq<byte>) {
    (ext == [] || ext[0] == SEMICOLON) && OneLine(ext)
  }

  lemma HexLine(utf8: seq<byte> -> bool, n: nat, ext: seq<byte>)
    requires n < USIZE && Extension(ext) && utf8(Hex(n) + ext)
    ensures SizeOf(utf8, Hex(n) + ext) == Some(n) && OneLine(Hex(n) + ext)
  {
    hide HexDigit, HexValue, SizeOf, Hex, OneLine;
    HexIsRead(n);
    var digits := Hex(n);
    assert [] + ([] + digits) + [] + ext == digits + ext;
    HexSizesAreRead(utf8, [], [], digits, [], ext);
    forall b | b in digits ensures b != CR { NotADigit(b); }
    DigitsInFront(digits, ext);
  }

  lemma DigitsInFront(digits: seq<byte>, ext: seq<byte>)
    requires CR !in digits && OneLine(ext)
    ensures OneLine(digits + ext)
  {
    var line := digits + ext;
    forall i | 0 <= i < |line| ensures !CrlfAt(line, i) {
      if i < |digits| {
        assert line[i] == digits[i] && digits[i] in digits;
      } else {
        assert !CrlfAt(ext, i - |digits|);
      }
    }
  }

  lemma {:induction false} HexChunksOk(utf8: seq<byte> -> bool, parts: seq<(seq<byte>, seq<byte>)>)
    requires forall p | p in parts :: p.0 != [] && |p.0| < USIZE && Extension(p.1) && utf8(Hex(|p.0|) + p.1)
    ensures forall c | c in HexChunks(parts) ::
      c.payload != [] && OneLine(c.line) && SizeOf(utf8, c.line) == Some(|c.payload|)
  {
    hide SizeOf, Hex, Extension, OneLine;
    if parts != [] {
      assert parts[0] in parts && forall p | p in parts[1..] :: p in parts;
      HexLine(utf8, |parts[0].0|, parts[0].1);
      HexChunksOk(utf8, parts[1..]);
    }
  }

  /**
   * The round trip with the decoder's own reading of size lines: any payloads, announced in
   * hexadecimal with any extensions, and any trailers come back, whatever follows; nothing shorter
   * is taken for the whole body.
   */
  lemma HexBodyRoundTrip(utf8: seq<byte> -> bool, parts: seq<(seq<byte>, seq<byte>)>, last: seq<byte>,
                         trailers: seq<seq<byte>>, rest: seq<byte>)
    requires forall p | p in parts :: p.0 != [] && |p.0| < USIZE && Extension(p.1) && utf8(Hex(|p.0|) + p.1)
    requires Extension(last) && utf8(Hex(0) + last) && forall l | l in trailers :: l != [] && OneLine(l)
    requires |Encode(Chunked(HexChunks(parts), Hex(0) + last, trailers))| <= MAX_BODY_BYTES
    ensures var sizes := line => SizeOf(utf8, line);
      var c := Chunked(HexChunks(parts), Hex(0) + last, trailers);
      && Parse(sizes, Visible(Encode(c) + rest, MAX_BODY_BYTES), 0, 0) ==
         Done(Payloads(c.chunks), |Encode(c)| - |EncodeTrailers(trailers)|, |Encode(c)|)
      && forall k: nat | k < |Encode(c)| :: Parse(sizes, Encode(c)[..k], 0, 0) == More
  {
    hide SizeOf, Hex, Extension, OneLine, Parse, Encode, Payloads, Visible;
    HexChunksOk(utf8, parts);
    HexLine(utf8, 0, last);
    RoundTrip(line => SizeOf(utf8, line), Chunked(HexChunks(parts), Hex(0) + last, trailers), rest);
  }

  // What the cuts decide ----------------------------------------------------------------

  function Ones(n: nat): (cuts: seq<nat>)
    ensures |cuts| == n
  {
    seq(n, _ => 1)
  }

  /** Byte by byte, reads land on every length. */
  lemma {:induction false} BytewiseLands(len: nat, rest: nat, lo: nat, hi: nat)
    requires len <= lo < hi <= len + rest && hi <= MAX_BODY_BYTES
    ensures Lands(len, rest, Ones(lo - len), lo, hi)
    decreases lo - len
  {
    hide Lands;
    LandsUnfolds(len, rest, Ones(lo - len), lo, hi);
    if len < lo {
      BytewiseLands(len + 1, rest - 1, lo, hi);
      assert Ones(lo - len)[1..] == Ones(lo - len - 1);
    }
  }

  /** Byte by byte up to `lo`, and from there in one read past `hi`. */
  lemma {:induction false} JumpsOver(len: nat, rest: nat, lo: nat, hi: nat)
    requires len < lo && hi <= len + rest && hi <= MAX_BODY_BYTES && hi - (lo - 1) <= READ_CHUNK
    ensures !Lands(len, rest, Ones(lo - 1 - len), lo, hi)
    decreases lo - len
  {
    hide Lands;
    var cuts := Ones(lo - 1 - len);
    LandsUnfolds(len, rest, cuts, lo, hi);
    if len < hi {
      var n := Taken(cuts, Room(len, MAX_BODY_BYTES), rest);
      if len == lo - 1 {
        LandsUnfolds(len + n, rest - n, Later(cuts), lo, hi);
      } else {
        assert cuts[1..] == Ones(lo - 1 - (len + 1));
        JumpsOver(len + 1, rest - 1, lo, hi);
      }
    }
  }

  /** A stretch longer than any read cannot be jumped over. */
  lemma {:induction false} MustLand(len: nat, rest: nat, cuts: seq<nat>, lo: nat, hi: nat)
    requires len < lo && hi <= len + rest && hi <= MAX_BODY_BYTES && hi - (lo - 1) > READ_CHUNK
    ensures Lands(len, rest, cuts, lo, hi)
    decreases rest
  {
    hide Lands;
    LandsUnfolds(len, rest, cuts, lo, hi);
    var n := Taken(cuts, Room(len, MAX_BODY_BYTES), rest);
    if len + n < lo {
      MustLand(len + n, rest - n, Later(cuts), lo, hi);
    } else {
      LandsUnfolds(len + n, rest - n, Later(cuts), lo, hi);
    }
  }

  /** No read lands in an empty stretch. */
  lemma {:induction false} NothingBetween(len: nat, rest: nat, cuts: seq<nat>, lo: nat, hi: nat)
    requires hi <= lo
    ensures !Lands(len, rest, cuts, lo, hi)
    decreases rest
  {
    if len < hi && 0 < rest && len < MAX_BODY_BYTES {
      var n := Taken(cuts, Room(len, MAX_BODY_BYTES), rest);
      NothingBetween(len + n, rest - n, Later(cuts), lo, hi);
    }
  }

  /**
   * What the cuts decide about a body that the one-shot decoder accepts, read from behind headers
   * within their own limit: it is accepted in every cut if and only if its trailers keep their
   * limit, and in some cut if and only if they exceed it by less than one read.
   */
  lemma CutsDecide(sizes: Sizes, start: seq<byte>, data: seq<byte>)
    requires |start| <= MAX_HEADER_BYTES
    requires Parse(sizes, Visible(start + data, MAX_BODY_BYTES), 0, 0).Done?
    ensures var parsed := Parse(sizes, Visible(start + data, MAX_BODY_BYTES), 0, 0);
      && ((forall cuts :: Decoded(sizes, start, data, cuts) == Some(parsed.body)) <==>
          parsed.end - parsed.trailers <= MAX_HEADER_BYTES)
      && ((exists cuts :: Decoded(sizes, start, data, cuts) == Some(parsed.body)) <==>
          parsed.end - parsed.trailers < MAX_HEADER_BYTES + READ_CHUNK)
  {
    hide Parse, Lands;
    var parsed := Parse(sizes, Visible(start + data, MAX_BODY_BYTES), 0, 0);
    var len, rest, lo, hi := |start|, |data|, parsed.trailers + MAX_HEADER_BYTES, parsed.end;
    TrailersComeLater(sizes, Visible(start + data, MAX_BODY_BYTES));
    assert hi <= len + rest && hi <= MAX_BODY_BYTES && len < lo;
    if hi <= lo {
      forall cuts ensures Decoded(sizes, start, data, cuts) == Some(parsed.body) {
        NothingBetween(len, rest, cuts, lo, hi);
      }
      assert Decoded(sizes, start, data, []) == Some(parsed.body);
    } else {
      BytewiseLands(len, rest, lo, hi);
      assert Decoded(sizes, start, data, Ones(lo - len)) == None;
      if hi - (lo - 1) <= READ_CHUNK {
        JumpsOver(len, rest, lo, hi);
        assert Decoded(sizes, start, data, Ones(lo - 1 - len)) == Some(parsed.body);
      } else {
        forall cuts ensures Decoded(sizes, start, data, cuts) == None {
          MustLand(len, rest, cuts, lo, hi);
        }
      }
    }
  }

  lemma TrailersComeLater(sizes: Sizes, s: seq<byte>)
    ensures Parse(sizes, s, 0, 0).Done? ==> Parse(sizes, s, 0, 0).trailers > 0
  {
    hide Parse;
    ParseUnfolds(sizes, s, 0, 0);
  }

  /** A body with one long trailer that is accepted in one cut of the stream and refused in another. */
  lemma TrailersDependOnTheCut(sizes: Sizes, last: seq<byte>)
    requires OneLine(last) && sizes(last) == Some(0) && |last| <= MAX_HEADER_BYTES
    ensures exists c: Chunked, some: seq<nat>, other: seq<nat> ::
      && c.Ok(sizes) && Payloads(c.chunks) == []
      && Decoded(sizes, [], Encode(c), some) == Some([]) && Decoded(sizes, [], Encode(c), other) == None
  {
    hide Parse, Decoded;
    var line: seq<byte> := seq(MAX_HEADER_BYTES, _ => 0);
    var lines: seq<seq<byte>> := [line];
    var c := Chunked([], last, lines);
    assert OneLine(line) && line != [];
    assert lines[1..] == [];
    assert |EncodeTrailers(c.trailers)| == MAX_HEADER_BYTES + 4 && |Encode(c)| == |last| + 2 + MAX_HEADER_BYTES + 4;
    RoundTrip(sizes, c, []);
    assert Encode(c) + [] == Encode(c) && [] + Encode(c) == Encode(c);
    CutsDecide(sizes, [], Encode(c));
    var some :| Decoded(sizes, [], Encode(c), some) == Some([]);
    var other :| Decoded(sizes, [], Encode(c), other) != Some([]);
    DecodedOrNot(sizes, [], Encode(c), other);
  }

  lemma DecodedOrNot(sizes: Sizes, start: seq<byte>, data: seq<byte>, cuts: seq<nat>)
    ensures Decoded(sizes, start, data, cuts).None? ||
      Decoded(sizes, start, data, cuts) == Some(Parse(sizes, Visible(start + data, MAX_BODY_BYTES), 0, 0).body)
  {
    hide Parse;
  }
}
