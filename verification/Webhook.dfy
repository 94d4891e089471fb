/** The webhook signature header: "t=<unix seconds>,v1=<hex MAC>", its parser, and signing and
    verification over an uninterpreted MAC. */
module Webhook {
  import opened Decimal
  import opened Hex
  import opened MachineInts
  import opened Options
  import opened Texts

  /** HMAC-SHA256 of a key and a message. */
  type Mac = (Bytes, Bytes) -> Bytes

  ghost predicate ThirtyTwoBytes(mac: Mac) {
    forall k, m :: |mac(k, m)| == 32
  }

  datatype HeaderError = EmptySecret | EmptyHeader | BadTimestamp | MissingTimestamp | MissingMac | BadHex
      | OutsideTolerance | Mismatch

  // ---- String helpers ----

  /** Splitting at every separator: one character at a time, a separator opens a new part. */
  function Split(s: string, sep: char): (parts: seq<string>)
    ensures parts != []
  {
    if s == "" then [""]
    else
      var n := |s| - 1;
      var parts := Split(s[..n], sep);
      var m := |parts| - 1;
      if s[n] == sep then parts + [""] else parts[..m] + [parts[m] + [s[n]]]
  }

  lemma SplitSnoc(s: string, sep: char, c: char, before: seq<string>, part: string)
    requires Split(s, sep) == before + [part]
    ensures Split(s + [c], sep) == if c == sep then before + [part] + [""] else before + [part + [c]]
  {
    assert (s + [c])[..|s|] == s;
    assert (before + [part])[..|before|] == before;
  }

  method SplitOn(s: string, sep: char) returns (out: seq<string>)
    ensures out == Split(s, sep)
  {
    out := [];
    var start, i := 0, 0;
    while i < |s|
      invariant 0 <= start <= i <= |s|
      invariant Split(s[..i], sep) == out + [s[start..i]]
    {
      assert s[..i + 1] == s[..i] + [s[i]];
      SplitSnoc(s[..i], sep, s[i], out, s[start..i]);
      if s[i] == sep {
        out := out + [s[start..i]];
        start := i + 1;
        assert s[start..i + 1] == "";
      } else {
        assert s[start..i + 1] == s[start..i] + [s[i]];
      }
      i := i + 1;
    }
    assert s[..i] == s && s[start..] == s[start..i];
    out := out + [s[start..]];
  }

  lemma {:induction false} SplitPlain(a: string, sep: char)
    requires sep !in a
    ensures Split(a, sep) == [a]
  {
    if a != "" {
      SplitPlain(a[..|a| - 1], sep);
      assert a == a[..|a| - 1] + [a[|a| - 1]];
    }
  }

  lemma {:induction false} SplitConcat(a: string, sep: char, b: string)
    ensures Split(a + [sep] + b, sep) == Split(a, sep) + Split(b, sep)
  {
    if b == "" {
      var before := Split(a, sep);
      var m := |before| - 1;
      SplitSnoc(a, sep, sep, before[..m], before[m]);
      assert a + [sep] + b == a + [sep];
    } else {
      var rest, c := b[..|b| - 1], b[|b| - 1];
      SplitConcat(a, sep, rest);
      assert b == rest + [c] && a + [sep] + b == (a + [sep] + rest) + [c];
      SplitSnocs(a + [sep] + rest, rest, sep, c, Split(a, sep), Split(rest, sep));
    }
  }

  lemma SplitSnocs(s: string, rest: string, sep: char, c: char, before: seq<string>, after: seq<string>)
    requires after != [] && Split(s, sep) == before + after && Split(rest, sep) == after
    ensures Split(s + [c], sep) == before + Split(rest + [c], sep)
  {
    var front, last := after[..|after| - 1], after[|after| - 1];
    assert after == front + [last];
    SplitSnoc(rest, sep, c, front, last);
    Reassociate(before, front, [last]);
    SplitSnoc(s, sep, c, before + front, last);
    Reassociate(before, front + [last], [""]);
    Reassociate(before, front, [last + [c]]);
  }

  lemma Reassociate(a: seq<string>, b: seq<string>, c: seq<string>)
    ensures a + (b + c) == (a + b) + c
  {
  }

  predicate Blank(c: char) { c == ' ' || c == '\t' }

  function TrimLeft(s: string): string {
    if s != "" && Blank(s[0]) then TrimLeft(s[1..]) else s
  }

  function TrimRight(s: string): string {
    if s != "" && Blank(s[|s| - 1]) then TrimRight(s[..|s| - 1]) else s
  }

  function Trimmed(s: string): string { TrimRight(TrimLeft(s)) }

  method TrimSpace(s: string) returns (r: string)
    ensures r == Trimmed(s)
  {
    r := s;
    while |r| > 0 && (r[0] == ' ' || r[0] == '\t')
      invariant TrimLeft(r) == TrimLeft(s)
    {
      r := r[1..];
    }
    while |r| > 0 && (r[|r| - 1] == ' ' || r[|r| - 1] == '\t')
      invariant TrimRight(r) == Trimmed(s)
    {
      r := r[..|r| - 1];
    }
  }

  method IndexByte(s: string, b: char) returns (k: int)
    ensures k == match IndexOf(s, b) case None => -1 case Some(i) => i
  {
    var i := 0;
    while i < |s|
      invariant 0 <= i <= |s| && b !in s[..i]
    {
      if s[i] == b {
        assert s == s[..i] + [b] + s[i + 1..];
        FirstIsUnique(s[..i], b, s[i + 1..]);
        return i;
      }
      i := i + 1;
    }
    assert s == s[..i];
    return -1;
  }

  // ---- The header ----

  /** What the scan has seen so far. */
  datatype Scan = Scan(ts: Option<int>, macHex: string)

  datatype Field = Field(key: string, val: string)

  /** A part is `key=value` around the first '='; anything else is skipped. */
  function FieldOf(part: string): Option<Field> {
    var p := Trimmed(part);
    match IndexOf(p, '=') case None => None case Some(k) => Some(Field(p[..k], p[k + 1..]))
  }

  function ScanPart(r: Result<Scan, HeaderError>, part: string): Result<Scan, HeaderError> {
    match r
    case Err(_) => r
    case Ok(seen) =>
      match FieldOf(part)
      case None => r
      case Some(f) =>
        if f.key == "t" then
          match ParseInt(f.val) case None => Err(BadTimestamp) case Some(n) => Ok(seen.(ts := Some(n)))
        else if f.key == "v1" then Ok(seen.(macHex := f.val))
        else r
  }

  function ScanParts(r: Result<Scan, HeaderError>, parts: seq<string>): Result<Scan, HeaderError> {
    if parts == [] then r else ScanPart(ScanParts(r, parts[..|parts| - 1]), parts[|parts| - 1])
  }

  datatype Header = Header(ts: int, mac: Bytes)

  function Finish(r: Result<Scan, HeaderError>): Result<Header, HeaderError> {
    match r
    case Err(e) => Err(e)
    case Ok(seen) =>
      if seen.ts.None? then Err(MissingTimestamp)
      else if seen.macHex == "" then Err(MissingMac)
      else match HexDecode(seen.macHex) case None => Err(BadHex) case Some(mac) => Ok(Header(seen.ts.value, mac))
  }

  const NOTHING: Result<Scan, HeaderError> := Ok(Scan(None, ""))

  function ParseParts(parts: seq<string>): Result<Header, HeaderError> {
    Finish(ScanParts(NOTHING, parts))
  }

  function ParseHeader(s: string): Result<Header, HeaderError> {
    if s == "" then Err(EmptyHeader) else ParseParts(Split(s, ','))
  }

  lemma {:induction false} ErrorSticks(e: HeaderError, parts: seq<string>)
    ensures ScanParts(Err(e), parts) == Err(e)
  {
    if parts != [] { ErrorSticks(e, parts[..|parts| - 1]); }
  }

  lemma {:induction false} ScanConcat(r: Result<Scan, HeaderError>, a: seq<string>, b: seq<string>)
    ensures ScanParts(r, a + b) == ScanParts(ScanParts(r, a), b)
  {
    if b == [] {
      assert a + b == a;
    } else {
      assert (a + b)[..|a + b| - 1] == a + b[..|b| - 1];
      ScanConcat(r, a, b[..|b| - 1]);
    }
  }

  lemma ScanNext(parts: seq<string>, i: nat)
    requires i < |parts|
    ensures ScanParts(NOTHING, parts[..i + 1]) == ScanPart(ScanParts(NOTHING, parts[..i]), parts[i])
  {
    assert parts[..i + 1][..i] == parts[..i];
  }

  lemma ScanStops(parts: seq<string>, i: nat, e: HeaderError)
    requires i <= |parts| && ScanParts(NOTHING, parts[..i]) == Err(e)
    ensures ScanParts(NOTHING, parts) == Err(e)
  {
    assert parts == parts[..i] + parts[i..];
    ScanConcat(NOTHING, parts[..i], parts[i..]);
    ErrorSticks(e, parts[i..]);
  }

  method ParseSignatureHeader(s: string) returns (r: Result<Header, HeaderError>)
    ensures r == ParseHeader(s)
  {
    if s == "" { return Err(EmptyHeader); }
    var ts := 0;
    var macHex := "";
    var hasTs := false;
    var parts := SplitOn(s, ',');
    var i := 0;
    while i < |parts|
      invariant 0 <= i <= |parts|
      invariant ScanParts(NOTHING, parts[..i]) == Ok(Scan(if hasTs then Some(ts) else None, macHex))
    {
      ScanNext(parts, i);
      var part := TrimSpace(parts[i]);
      var eq := IndexByte(part, '=');
      i := i + 1;
      if eq < 0 { continue; }
      var key, val := part[..eq], part[eq + 1..];
      if key == "t" {
        var n := ParseInt(val);
        if n.None? {
          ScanStops(parts, i, BadTimestamp);
          return Err(BadTimestamp);
        }
        ts, hasTs := n.value, true;
      } else if key == "v1" {
        macHex := val;
      }
    }
    assert parts[..i] == parts;
    if !hasTs { return Err(MissingTimestamp); }
    if macHex == "" { return Err(MissingMac); }
    var mac := HexDecode(macHex);
    if mac.None? { return Err(BadHex); }
    return Ok(Header(ts, mac.value));
  }

  // ---- Splitting and joining are inverse ----

  function Join(parts: seq<string>, sep: char): string
    requires parts != []
  {
    if |parts| == 1 then parts[0] else parts[0] + [sep] + Join(parts[1..], sep)
  }

  ghost predicate Free(parts: seq<string>, sep: char) {
    forall i :: 0 <= i < |parts| ==> sep !in parts[i]
  }

  lemma {:induction false} SplitJoin(parts: seq<string>, sep: char)
    requires parts != [] && Free(parts, sep)
    ensures Split(Join(parts, sep), sep) == parts
  {
    SplitPlain(parts[0], sep);
    if |parts| > 1 {
      SplitConcat(parts[0], sep, Join(parts[1..], sep));
      SplitJoin(parts[1..], sep);
    }
  }

  lemma {:induction false} JoinSplit(s: string, sep: char)
    ensures Free(Split(s, sep), sep) && Join(Split(s, sep), sep) == s
  {
    if s != "" {
      var n := |s| - 1;
      JoinSplit(s[..n], sep);
      JoinSnoc(Split(s[..n], sep), sep, s[n]);
      assert s == s[..n] + [s[n]];
    }
  }

  /** A character at the end of a join belongs to its last part, a separator opens a new one. */
  lemma {:induction false} JoinSnoc(parts: seq<string>, sep: char, c: char)
    requires parts != []
    ensures Join(parts, sep) + [c]
         == Join(if c == sep then parts + [""] else parts[..|parts| - 1] + [parts[|parts| - 1] + [c]], sep)
  {
    var m := |parts| - 1;
    var parts' := if c == sep then parts + [""] else parts[..m] + [parts[m] + [c]];
    if m == 0 {
      assert c == sep ==> parts'[1..] == [""];
    } else {
      JoinSnoc(parts[1..], sep, c);
      assert parts'[1..] == if c == sep then parts[1..] + [""] else parts[1..][..m - 1] + [parts[1..][m - 1] + [c]];
    }
  }

  // ---- Blanks around a part do not matter ----

  predicate AllBlank(s: string) {
    forall i :: 0 <= i < |s| ==> s[i] == ' ' || s[i] == '\t'
  }

  lemma {:induction false} TrimLeftBlank(a: string, s: string)
    requires AllBlank(a)
    ensures TrimLeft(a + s) == TrimLeft(s)
  {
    if a == "" {
      assert a + s == s;
    } else {
      TrimLeftBlank(a[1..], s);
      assert (a + s)[1..] == a[1..] + s;
    }
  }

  lemma {:induction false} TrimRightBlank(s: string, b: string)
    requires AllBlank(b)
    ensures TrimRight(s + b) == TrimRight(s)
  {
    if b == "" {
      assert s + b == s;
    } else {
      TrimRightBlank(s, b[..|b| - 1]);
      assert (s + b)[..|s + b| - 1] == s + b[..|b| - 1];
    }
  }

  lemma {:induction false} TrimLeftThrough(p: string, b: string)
    requires AllBlank(b)
    ensures TrimLeft(p + b) == if TrimLeft(p) == "" then "" else TrimLeft(p) + b
  {
    if p == "" {
      assert p + b == b + "";
      TrimLeftBlank(b, "");
    } else if Blank(p[0]) {
      TrimLeftThrough(p[1..], b);
      assert (p + b)[1..] == p[1..] + b;
    }
  }

  /** A part reads the same with any blanks around it. */
  lemma BlanksDoNotMatter(a: string, part: string, b: string)
    requires AllBlank(a) && AllBlank(b)
    ensures Trimmed(a + part + b) == Trimmed(part) && FieldOf(a + part + b) == FieldOf(part)
  {
    assert a + part + b == a + (part + b);
    TrimLeftBlank(a, part + b);
    TrimLeftThrough(part, b);
    TrimRightBlank(TrimLeft(part), b);
  }

  /** Trimming removes blanks at both ends, all of them and nothing else. */
  lemma TrimmedExactly(s: string) returns (a: string, b: string)
    ensures AllBlank(a) && AllBlank(b) && s == a + Trimmed(s) + b
    ensures Trimmed(s) != "" ==> Trimmed(s)[0] !in " \t" && Trimmed(s)[|Trimmed(s)| - 1] !in " \t"
  {
    a := LeftBlanks(s);
    b := RightBlanks(TrimLeft(s));
  }

  lemma {:induction false} LeftBlanks(s: string) returns (a: string)
    ensures AllBlank(a) && s == a + TrimLeft(s) && (TrimLeft(s) != "" ==> !Blank(TrimLeft(s)[0]))
  {
    a := "";
    if s != "" && Blank(s[0]) {
      a := LeftBlanks(s[1..]);
      assert s == [s[0]] + s[1..];
      a := [s[0]] + a;
    }
  }

  lemma {:induction false} RightBlanks(s: string) returns (b: string)
    ensures AllBlank(b) && s == TrimRight(s) + b
    ensures TrimRight(s) != "" ==> !Blank(TrimRight(s)[|TrimRight(s)| - 1]) && TrimRight(s)[0] == s[0]
  {
    b := "";
    if s != "" && Blank(s[|s| - 1]) {
      b := RightBlanks(s[..|s| - 1]);
      assert s == s[..|s| - 1] + [s[|s| - 1]];
      b := b + [s[|s| - 1]];
    }
  }

  // ---- What a header says ----

  /** The value of the last part with this key. */
  function LastOf(parts: seq<string>, key: string): Option<string> {
    if parts == [] then None
    else
      var f := FieldOf(parts[|parts| - 1]);
      if f.Some? && f.value.key == key then Some(f.value.val) else LastOf(parts[..|parts| - 1], key)
  }

  predicate BadTime(part: string) {
    FieldOf(part).Some? && FieldOf(part).value.key == "t" && ParseInt(FieldOf(part).value.val).None?
  }

  lemma {:induction false} ScannedExactly(parts: seq<string>)
    ensures (exists k :: 0 <= k < |parts| && BadTime(parts[k])) ==> ScanParts(NOTHING, parts) == Err(BadTimestamp)
    ensures (forall k :: 0 <= k < |parts| ==> !BadTime(parts[k])) ==>
              && ScanParts(NOTHING, parts).Ok?
              && ScanParts(NOTHING, parts).value.ts
                 == (if LastOf(parts, "t").None? then None else ParseInt(LastOf(parts, "t").value))
              && ScanParts(NOTHING, parts).value.macHex
                 == (if LastOf(parts, "v1").None? then "" else LastOf(parts, "v1").value)
              && (LastOf(parts, "t").Some? ==> ParseInt(LastOf(parts, "t").value).Some?)
  {
    if parts != [] {
      var n := |parts| - 1;
      ScannedExactly(parts[..n]);
      assert parts == parts[..n] + [parts[n]];
      if k :| 0 <= k < |parts| && BadTime(parts[k]) {
        if k < n { assert parts[..n][k] == parts[k]; }
      }
    }
  }

  /** A header is refused exactly for a timestamp that is no int64, for lacking one, for lacking a v1
      value or having a last one that is empty or no hex; else it says its last t and its last v1. */
  lemma HeaderExactly(s: string)
    ensures var parts := Split(s, ',');
            var time, hex := LastOf(parts, "t"), LastOf(parts, "v1");
            ParseHeader(s) ==
              if s == "" then Err(EmptyHeader)
              else if exists k :: 0 <= k < |parts| && BadTime(parts[k]) then Err(BadTimestamp)
              else if time.None? then Err(MissingTimestamp)
              else if hex.None? || hex.value == "" then Err(MissingMac)
              else if HexDecode(hex.value).None? then Err(BadHex)
              else if ParseInt(time.value).None? then Err(BadTimestamp)
              else Ok(Header(ParseInt(time.value).value, HexDecode(hex.value).value))
  {
    ScannedExactly(Split(s, ','));
  }

  // ---- Unknown parts are ignored, wherever they stand ----

  predicate Ignored(part: string) {
    FieldOf(part).None? || FieldOf(part).value.key !in {"t", "v1"}
  }

  lemma {:induction false} IgnoredParts(r: Result<Scan, HeaderError>, extra: seq<string>)
    requires forall i :: 0 <= i < |extra| ==> Ignored(extra[i])
    ensures ScanParts(r, extra) == r
  {
    if extra != [] { IgnoredParts(r, extra[..|extra| - 1]); }
  }

  /** Inserting parts with other keys anywhere in a header changes nothing. Every header is such a
      join, by JoinSplit. */
  lemma ExtensionsAreIgnored(before: seq<string>, extra: seq<string>, after: seq<string>)
    requires before + after != [] && Free(before, ',') && Free(extra, ',') && Free(after, ',')
    requires forall i :: 0 <= i < |extra| ==> Ignored(extra[i])
    requires Join(before + after, ',') != ""
    ensures ParseHeader(Join(before + extra + after, ',')) == ParseHeader(Join(before + after, ','))
  {
    SplitJoin(before + after, ',');
    SplitJoin(before + extra + after, ',');
    ScanConcat(NOTHING, before, after);
    ScanConcat(NOTHING, before + extra, after);
    ScanConcat(NOTHING, before, extra);
    IgnoredParts(ScanParts(NOTHING, before), extra);
    NotEmptied(before, extra, after);
  }

  lemma NotEmptied(before: seq<string>, extra: seq<string>, after: seq<string>)
    requires before + after != [] && Join(before + after, ',') != ""
    ensures Join(before + extra + after, ',') != ""
  {
    var all := before + extra + after;
    if |all| == 1 { assert extra == [] ==> all == before + after; }
  }

  // ---- Signing ----

  /** ASCII text as bytes. */
  function Ascii(s: string): (b: Bytes)
    requires forall i :: 0 <= i < |s| ==> s[i] as int < 128
    ensures |b| == |s| && forall i :: 0 <= i < |s| ==> b[i] == s[i] as int
  {
    seq(|s|, i requires 0 <= i < |s| => s[i] as int)
  }

  const DOT: Byte := 46

  function SignedBytes(ts: int, body: Bytes): Bytes {
    Ascii(FormatInt(ts)) + [DOT] + body
  }

  function HeaderText(ts: int, mac: Bytes): string {
    "t=" + FormatInt(ts) + ",v1=" + HexEncode(mac)
  }

  function Sign(mac: Mac, secret: Bytes, body: Bytes, ts: int): Result<string, HeaderError> {
    if secret == [] then Err(EmptySecret) else Ok(HeaderText(ts, mac(secret, SignedBytes(ts, body))))
  }

  /** The signed bytes determine the timestamp and the body. */
  lemma SignedBytesInjective(t1: int, b1: Bytes, t2: int, b2: Bytes)
    requires IsInt64(t1) && IsInt64(t2) && SignedBytes(t1, b1) == SignedBytes(t2, b2)
    ensures t1 == t2 && b1 == b2
  {
    var a1, a2 := Ascii(FormatInt(t1)), Ascii(FormatInt(t2));
    FirstIsUnique(a1, DOT, b1);
    FirstIsUnique(a2, DOT, b2);
    assert SignedBytes(t1, b1)[..|a1|] == a1 && SignedBytes(t2, b2)[..|a2|] == a2;
    assert SignedBytes(t1, b1)[|a1| + 1..] == b1 && SignedBytes(t2, b2)[|a2| + 1..] == b2;
    AsciiInjective(FormatInt(t1), FormatInt(t2));
    ParseFormatInt(t1);
    ParseFormatInt(t2);
  }

  lemma AsciiInjective(s: string, t: string)
    requires (forall i :: 0 <= i < |s| ==> s[i] as int < 128) && (forall i :: 0 <= i < |t| ==> t[i] as int < 128)
    requires Ascii(s) == Ascii(t)
    ensures s == t
  {
    assert |s| == |Ascii(s)| == |Ascii(t)| == |t|;
    forall i | 0 <= i < |s| ensures s[i] == t[i] { assert Ascii(s)[i] == Ascii(t)[i]; }
  }

  // ---- Round trip ----

  lemma FieldText(key: string, val: string)
    requires key != "" && val != "" && '=' !in key && !Blank(key[0]) && !Blank(val[|val| - 1])
    ensures FieldOf(key + "=" + val) == Some(Field(key, val))
  {
    var p := key + ['='] + val;
    assert p == key + "=" + val;
    assert p[0] == key[0] && p[|p| - 1] == val[|val| - 1];
    assert Trimmed(p) == p;
    FirstIsUnique(key, '=', val);
    assert p[..|key|] == key && p[|key| + 1..] == val;
  }

  /** Parsing a printed header gives back its timestamp and MAC, for every int64 and every MAC. */
  lemma HeaderRoundTrip(ts: int, mac: Bytes)
    requires IsInt64(ts) && mac != []
    ensures ParseHeader(HeaderText(ts, mac)) == Ok(Header(ts, mac))
  {
    var parts := ["t" + "=" + FormatInt(ts), "v1" + "=" + HexEncode(mac)];
    HeaderIsJoin(ts, mac);
    SplitJoin(parts, ',');
    ScanTwo(parts[0], parts[1]);
    TimeScanned(ts);
    MacScanned(Scan(Some(ts), ""), mac);
    HexRoundTrip(mac);
  }

  lemma TimeScanned(ts: int)
    requires IsInt64(ts)
    ensures ScanPart(NOTHING, "t" + "=" + FormatInt(ts)) == Ok(Scan(Some(ts), ""))
  {
    FieldText("t", FormatInt(ts));
    ParseFormatInt(ts);
  }

  lemma MacScanned(seen: Scan, mac: Bytes)
    requires mac != []
    ensures ScanPart(Ok(seen), "v1" + "=" + HexEncode(mac)) == Ok(seen.(macHex := HexEncode(mac)))
  {
    HexRoundTrip(mac);
    FieldText("v1", HexEncode(mac));
  }

  lemma ScanTwo(a: string, b: string)
    ensures ScanParts(NOTHING, [a, b]) == ScanPart(ScanPart(NOTHING, a), b)
  {
    assert [a, b][..1] == [a] && [a][..0] == [];
    assert ScanParts(NOTHING, [a]) == ScanPart(NOTHING, a);
  }

  lemma HeaderIsJoin(ts: int, mac: Bytes)
    requires mac != []
    ensures var parts := ["t" + "=" + FormatInt(ts), "v1" + "=" + HexEncode(mac)];
            Free(parts, ',') && HeaderText(ts, mac) == Join(parts, ',')
  {
    var a, b := "t" + "=" + FormatInt(ts), "v1" + "=" + HexEncode(mac);
    NoComma(mac);
    assert [a, b][1..] == [b];
    assert HeaderText(ts, mac) == a + [','] + b;
  }

  lemma NoComma(mac: Bytes)
    ensures ',' !in HexEncode(mac)
  {
    HexRoundTrip(mac);
    assert HexValue(',').None?;
  }

  // ---- Verification ----

  /** A clock reading as the standard library keeps it: seconds since year 1 and nanoseconds. */
  datatype Clock = Clock(sec: int, nsec: int)
  type Instant = t: Clock | IsInt64(t.sec) && 0 <= t.nsec < SECOND witness Clock(0, 0)

  const SECOND := 1_000_000_000
  const UNIX_EPOCH := 62_135_596_800

  function FromUnix(ts: int): Instant { Clock(Wrap64(ts + UNIX_EPOCH), 0) }

  /** Exact nanoseconds from the timestamp to now. */
  function Elapsed(now: Instant, ts: int): int {
    (now.sec - FromUnix(ts).sec) * SECOND + now.nsec
  }

  /** Durations saturate at the ends of int64. */
  function Saturated(d: int): (r: int)
    ensures IsInt64(r)
  {
    if d < -TWO_63 then -TWO_63 else if TWO_63 <= d then TWO_63 - 1 else d
  }

  /** Negating the least duration gives it back. */
  function Age(now: Instant, ts: int): int {
    var age := Saturated(Elapsed(now, ts));
    if age < 0 then Wrap64(-age) else age
  }

  /** None is acceptance. */
  function Verify(mac: Mac, secret: Bytes, body: Bytes, header: string, now: Instant,
                  tolerance: int): Option<HeaderError> {
    if secret == [] then Some(EmptySecret)
    else
      match ParseHeader(header)
      case Err(e) => Some(e)
      case Ok(h) =>
        if tolerance > 0 && Age(now, h.ts) > tolerance then Some(OutsideTolerance)
        else if h.mac != mac(secret, SignedBytes(h.ts, body)) then Some(Mismatch)
        else None
  }

  /** The tolerance test passes within the tolerance, but also for a timestamp so far ahead that the
      age saturates and negation wraps, and under the largest tolerance for one so far behind. */
  lemma ToleranceExactly(now: Instant, ts: int, tolerance: int)
    requires 0 < tolerance < TWO_63
    ensures Age(now, ts) <= tolerance <==>
            -tolerance <= Elapsed(now, ts) <= tolerance || Elapsed(now, ts) <= -TWO_63 || tolerance == TWO_63 - 1
  {
    var e := Elapsed(now, ts);
    if e <= -TWO_63 { WrapHigh(TWO_63); }
  }

  /** For timestamps the clock can hold, the time elapsed is the distance from the Unix time `unix`. */
  lemma ElapsedIsDistance(unix: int, nsec: int, ts: int)
    requires 0 <= nsec < 1_000_000_000
    requires IsInt64(unix + 62_135_596_800) && IsInt64(ts + 62_135_596_800)
    ensures Elapsed(Clock(unix + 62_135_596_800, nsec), ts) == (unix - ts) * 1_000_000_000 + nsec
  {
    assert FromUnix(ts) == Clock(ts + UNIX_EPOCH, 0);
  }

  /** A readable header is refused for its age before its MAC is looked at, and for its MAC only if
      its age passes; an unreadable one is refused with the reader's own error. */
  lemma RefusedExactly(mac: Mac, secret: Bytes, body: Bytes, header: string, now: Instant, tolerance: int)
    requires secret != []
    ensures var v, p := Verify(mac, secret, body, header, now, tolerance), ParseHeader(header);
            && (p.Err? ==> v == Some(p.error))
            && (p.Ok? ==>
                  var late := 0 < tolerance < Age(now, p.value.ts);
                  var wrong := mac(secret, SignedBytes(p.value.ts, body)) != p.value.mac;
                  && (v == Some(OutsideTolerance) <==> late)
                  && (v == Some(Mismatch) <==> !late && wrong)
                  && (v == None <==> !late && !wrong))
  {
  }

  /** Verify accepts what Sign produced exactly when the tolerance test passes. */
  lemma VerifyAcceptsSigned(mac: Mac, secret: Bytes, body: Bytes, ts: int, now: Instant, tolerance: int)
    requires ThirtyTwoBytes(mac) && secret != [] && IsInt64(ts)
    ensures Sign(mac, secret, body, ts).Ok?
    ensures Verify(mac, secret, body, Sign(mac, secret, body, ts).value, now, tolerance) == None
            <==> tolerance <= 0 || Age(now, ts) <= tolerance
  {
    HeaderRoundTrip(ts, mac(secret, SignedBytes(ts, body)));
  }

  /** A MAC made for one timestamp and body is accepted under another only if the MAC collides. */
  lemma AcceptanceBinds(mac: Mac, secret: Bytes, t1: int, b1: Bytes, t2: int, b2: Bytes, now: Instant, tolerance: int)
    requires ThirtyTwoBytes(mac) && IsInt64(t1) && IsInt64(t2)
    requires Verify(mac, secret, b2, HeaderText(t2, mac(secret, SignedBytes(t1, b1))), now, tolerance) == None
    ensures mac(secret, SignedBytes(t1, b1)) == mac(secret, SignedBytes(t2, b2))
    ensures (t1 == t2 && b1 == b2) || SignedBytes(t1, b1) != SignedBytes(t2, b2)
  {
    HeaderRoundTrip(t2, mac(secret, SignedBytes(t1, b1)));
    if SignedBytes(t1, b1) == SignedBytes(t2, b2) { SignedBytesInjective(t1, b1, t2, b2); }
  }

  /** An empty secret neither signs nor verifies. */
  lemma EmptySecretRefused(mac: Mac, body: Bytes, ts: int, header: string, now: Instant, tolerance: int)
    ensures Sign(mac, [], body, ts) == Err(EmptySecret)
    ensures Verify(mac, [], body, header, now, tolerance) == Some(EmptySecret)
  {
  }
}
