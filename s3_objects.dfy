/** The object store behind every upload: a bucket of object keys, the URL
    at which an uploaded object is recorded, and the way the repositories
    recover an object key from such a URL (`new URL(u).pathname`, minus the
    leading `/`, through `decodeURIComponent`). */
module S3Objects {
  import opened Common

  const InvalidUrl := "Invalid URL"
  const UriMalformed := "URI malformed"

  // ---------------------------------------------------------------- the bucket

  /** The bucket all four repositories share: the set of keys of the objects it holds. */
  class Bucket {
    var objects: set<string>

    constructor(initial: set<string>)
      ensures objects == initial
    {
      objects := initial;
    }

    /** Stores an object under `key`, as an upload does. */
    method Put(key: string)
      modifies this
      ensures objects == old(objects) + {key}
    {
      objects := objects + {key};
    }

    /** Removes the object under `key`, as multer-s3 does with a file of a failed upload. */
    method Remove(key: string)
      modifies this
      ensures objects == old(objects) - {key}
    {
      objects := objects - {key};
    }

    /** `deleteS3File`: a null or empty key does nothing; otherwise the object
        is removed (deleting a missing key is not an error on S3). */
    method DeleteFile(key: Option<string>)
      modifies this
      ensures objects == Removed(old(objects), key)
    {
      if Truthy(key) {
        objects := objects - {key.value};
      }
    }
  }

  /** The keys left after `deleteS3File(key)`. */
  function Removed(objects: set<string>, key: Option<string>): (r: set<string>)
    ensures Truthy(key) ==> r == objects - {key.value}
    ensures !Truthy(key) ==> r == objects
  {
    if Truthy(key) then objects - {key.value} else objects
  }

  // ---------------------------------------------------------------- characters

  predicate IsAsciiLetter(c: char) { 'a' <= c <= 'z' || 'A' <= c <= 'Z' }

  predicate IsAscii(c: char) { c as int < 128 }

  /** The characters an object URL carries unescaped (RFC 3986 unreserved). */
  predicate IsUnreserved(c: char) {
    IsAsciiLetter(c) || IsDigit(c) || c == '-' || c == '_' || c == '.' || c == '~'
  }

  function HexValue(c: char): (v: Option<nat>)
    ensures v.Some? ==> v.value < 16
  {
    if '0' <= c <= '9' then Some(c as int - '0' as int)
    else if 'a' <= c <= 'f' then Some(c as int - 'a' as int + 10)
    else if 'A' <= c <= 'F' then Some(c as int - 'A' as int + 10)
    else None
  }

  function HexDigit(d: nat): (c: char)
    requires d < 16
    ensures HexValue(c) == Some(d)
    ensures c != '%'
  {
    if d < 10 then ('0' as int + d) as char else ('A' as int + d - 10) as char
  }

  // ---------------------------------------------------------------- UTF-8

  /** The UTF-8 encoding of one character (RFC 3629), as byte values. */
  function Utf8(c: char): (bs: seq<nat>)
    ensures 1 <= |bs| <= 4
    ensures forall i :: 0 <= i < |bs| ==> bs[i] < 256
    ensures |bs| == 1 <==> IsAscii(c)
    ensures |bs| == 1 ==> bs[0] == c as int
  {
    var n := c as int;
    var q1 := n / 64;
    var q2 := q1 / 64;
    if n < 0x80 then [n]
    else if n < 0x800 then [0xC0 + q1, 0x80 + n % 64]
    else if n < 0x10000 then [0xE0 + q2, 0x80 + q1 % 64, 0x80 + n % 64]
    else [0xF0 + q2 / 64, 0x80 + q2 % 64, 0x80 + q1 % 64, 0x80 + n % 64]
  }

  /** The length of the UTF-8 sequence a lead byte starts, from its leading one
      bits; 0 for a continuation byte or a byte with more than four leading ones. */
  function SequenceLength(b: nat): (n: nat)
    ensures n <= 4
  {
    if b < 0x80 then 1
    else if b < 0xC0 then 0
    else if b < 0xE0 then 2
    else if b < 0xF0 then 3
    else if b < 0xF8 then 4
    else 0
  }

  predicate IsContinuation(b: nat) { 0x80 <= b < 0xC0 }

  /** The character a multi-byte UTF-8 sequence denotes; `None` for an
      overlong form, a surrogate or a value above U+10FFFF. */
  function CodePoint(bs: seq<nat>): (c: Option<char>)
    requires 2 <= |bs| <= 4 && SequenceLength(bs[0]) == |bs|
    requires forall i :: 1 <= i < |bs| ==> IsContinuation(bs[i])
  {
    var v: int := if |bs| == 2 then (bs[0] as int - 0xC0) * 64 + (bs[1] as int - 0x80)
                  else if |bs| == 3 then ((bs[0] as int - 0xE0) * 64 + (bs[1] as int - 0x80)) * 64 + (bs[2] as int - 0x80)
                  else (((bs[0] as int - 0xF0) * 64 + (bs[1] as int - 0x80)) * 64 + (bs[2] as int - 0x80)) * 64 + (bs[3] as int - 0x80);
    var least := if |bs| == 2 then 0x80 else if |bs| == 3 then 0x800 else 0x10000;
    if v < least || v >= 0x110000 || 0xD800 <= v < 0xE000 then None else Some(v as char)
  }

  /** A non-ASCII character's encoding is a lead byte announcing its length,
      continuation bytes, and decodes to the character again. */
  lemma Utf8Decodes(c: char)
    requires !IsAscii(c)
    ensures var bs := Utf8(c);
      && SequenceLength(bs[0]) == |bs|
      && (forall i :: 1 <= i < |bs| ==> IsContinuation(bs[i]))
      && CodePoint(bs) == Some(c)
  {
    var n := c as int;
    var q1 := n / 64;
    var q2 := q1 / 64;
    assert n == q1 * 64 + n % 64;
    assert q1 == q2 * 64 + q1 % 64;
    if n >= 0x10000 {
      assert q2 == q2 / 64 * 64 + q2 % 64;
      assert q2 / 64 < 8;
    }
  }

  // ---------------------------------------------------------------- object URLs

  /** `%XY` with upper-case hexadecimal digits, for one byte. */
  function Escape(b: nat): (e: string)
    requires b < 256
    ensures |e| == 3 && e[0] == '%' && HexValue(e[1]).Some? && HexValue(e[2]).Some?
    ensures HexValue(e[1]).value * 16 + HexValue(e[2]).value == b
  {
    "%" + [HexDigit(b / 16), HexDigit(b % 16)]
  }

  function EscapeBytes(bs: seq<nat>): (e: string)
    requires forall i :: 0 <= i < |bs| ==> bs[i] < 256
    ensures |e| == 3 * |bs|
    ensures forall i :: 0 <= i < |e| ==> e[i] == '%' || HexValue(e[i]).Some?
  {
    if bs == [] then [] else Escape(bs[0]) + EscapeBytes(bs[1..])
  }

  /** One key character as it appears in an object URL (`encodeURIComponent`
      with `!'()*` escaped too, and `/` kept between path segments):
      unreserved characters and `/` as they are, every other character as
      the `%XY` escapes of its UTF-8 bytes. */
  function EncodeChar(c: char): (e: string)
    ensures e == [c] || (|e| == 3 * |Utf8(c)| && e[0] == '%')
    ensures forall i :: 0 <= i < |e| ==> IsAscii(e[i])
    ensures c == '%' || c == '?' || c == '#' || !IsAscii(c) ==> e != [c]
  {
    if IsUnreserved(c) || c == '/' then [c] else EscapeBytes(Utf8(c))
  }

  function EncodeKey(key: string): (e: string)
    ensures forall i :: 0 <= i < |e| ==> e[i] != '?' && e[i] != '#' && IsAscii(e[i])
  {
    if key == [] then [] else EncodeChar(key[0]) + EncodeKey(key[1..])
  }

  /** A character of a plain host name: an ASCII letter, a digit, `-` or `.`. */
  predicate IsHostChar(c: char) { IsAsciiLetter(c) || IsDigit(c) || c == '-' || c == '.' }

  /** `k` starts the host's last label, and that label begins with a letter. */
  predicate TopLabelAt(host: string, k: int) {
    && 0 <= k < |host|
    && (k == 0 || host[k - 1] == '.')
    && IsAsciiLetter(host[k])
    && forall i :: k <= i < |host| ==> host[i] != '.'
  }

  /** A plain DNS host name, which `new URL` parses as a domain: letters,
      digits, `-` and `.` only, no `--` (so no punycode label), and a last
      label that starts with a letter (so never an IPv4 address). */
  predicate IsHost(host: string) {
    && (forall i :: 0 <= i < |host| ==> IsHostChar(host[i]))
    && (forall i :: 0 <= i < |host| - 1 ==> !(host[i] == '-' && host[i + 1] == '-'))
    && exists k :: 0 <= k < |host| && TopLabelAt(host, k)
  }

  /** No `/`-separated segment of the key is `.` or `..`, which `new URL`
      would resolve away. */
  predicate NoDotSegments(key: string)
    decreases |key|
  {
    var n := FirstOf(key, {'/'});
    && key[..n] != "."
    && key[..n] != ".."
    && (n < |key| ==> NoDotSegments(key[n + 1..]))
  }

  /** The URL at which an object stored under `key` in the bucket at `host` is recorded. */
  function ObjectUrl(host: string, key: string): string {
    "https://" + host + "/" + EncodeKey(key)
  }

  // ---------------------------------------------------------------- decoding

  /** The byte a `%XY` escape at the start of `s` denotes. */
  function EscapedByte(s: string): (b: Option<nat>)
    ensures b.Some? ==> |s| >= 3 && b.value < 256
  {
    if |s| >= 3 && s[0] == '%' && HexValue(s[1]).Some? && HexValue(s[2]).Some?
    then Some(HexValue(s[1]).value * 16 + HexValue(s[2]).value)
    else None
  }

  /** The `count` continuation bytes escaped at the start of `s`; `None` when
      one is missing, is not an escape or is not a continuation byte. */
  function Continuations(s: string, count: nat): (r: Option<seq<nat>>)
    ensures r.Some? ==> |s| >= 3 * count && |r.value| == count
    ensures r.Some? ==> forall i :: 0 <= i < count ==> IsContinuation(r.value[i])
  {
    if count == 0 then Some([])
    else
      match EscapedByte(s)
      case None => None
      case Some(b) =>
        if !IsContinuation(b) then None
        else
          match Continuations(s[3..], count - 1)
          case None => None
          case Some(rest) => Some([b] + rest)
  }

  /** `decodeURIComponent`: every `%XY` escape is read as a byte; a byte
      below `0x80` is that character, a lead byte is followed by the escapes
      of its continuation bytes and the whole sequence is one character. A
      `%` without two hexadecimal digits, a stray continuation byte, a
      missing continuation escape or an invalid sequence is the
      "URI malformed" error. */
  function PercentDecode(s: string): (r: Result<string, string>)
    ensures r.Failure? ==> r.error == UriMalformed
    ensures (forall i :: 0 <= i < |s| ==> s[i] != '%') ==> r == Success(s)
    decreases |s|
  {
    if s == [] then Success([])
    else if s[0] != '%' then
      match PercentDecode(s[1..])
      case Failure(e) => Failure(e)
      case Success(t) =>
        assert [s[0]] + s[1..] == s;
        Success([s[0]] + t)
    else
      match EscapedByte(s)
      case None => Failure(UriMalformed)
      case Some(b) =>
        var n := SequenceLength(b);
        if n == 0 then Failure(UriMalformed)
        else if n == 1 then
          match PercentDecode(s[3..])
          case Failure(e) => Failure(e)
          case Success(t) => Success([b as char] + t)
        else
          match Continuations(s[3..], n - 1)
          case None => Failure(UriMalformed)
          case Some(tail) =>
            match CodePoint([b] + tail)
            case None => Failure(UriMalformed)
            case Some(c) =>
              match PercentDecode(s[3 * n..])
              case Failure(e) => Failure(e)
              case Success(t) => Success([c] + t)
  }

  lemma EscapedByteOf(b: nat, rest: string)
    requires b < 256
    ensures EscapedByte(Escape(b) + rest) == Some(b)
  {
    var s := Escape(b) + rest;
    assert s[..3] == Escape(b);
  }

  /** The escapes of a non-empty byte sequence, followed by `rest`: the
      first escape, then the escapes of the other bytes and `rest`. */
  lemma EscapeBytesCons(bs: seq<nat>, rest: string)
    requires bs != [] && forall i :: 0 <= i < |bs| ==> bs[i] < 256
    ensures EscapedByte(EscapeBytes(bs) + rest) == Some(bs[0])
    ensures (EscapeBytes(bs) + rest)[3..] == EscapeBytes(bs[1..]) + rest
  {
    var head := Escape(bs[0]);
    var tail := EscapeBytes(bs[1..]) + rest;
    assert EscapeBytes(bs) + rest == head + tail;
    assert (head + tail)[3..] == tail;
    EscapedByteOf(bs[0], tail);
  }

  lemma {:induction false} ContinuationsOf(bs: seq<nat>, rest: string)
    requires forall i :: 0 <= i < |bs| ==> bs[i] < 256 && IsContinuation(bs[i])
    ensures Continuations(EscapeBytes(bs) + rest, |bs|) == Some(bs)
  {
    if bs != [] {
      EscapeBytesCons(bs, rest);
      ContinuationsOf(bs[1..], rest);
      assert [bs[0]] + bs[1..] == bs;
    }
  }

  /** A character escaped as one byte decodes to itself. */
  lemma DecodeEscapedAscii(c: char, rest: string)
    requires IsAscii(c)
    ensures PercentDecode(Escape(c as int) + rest) ==
      match PercentDecode(rest)
      case Failure(e) => Failure(e)
      case Success(t) => Success([c] + t)
  {
    var s := Escape(c as int) + rest;
    EscapedByteOf(c as int, rest);
    assert s[3..] == rest;
  }

  /** One step of the decoder over a lead-byte escape followed by the
      escapes of its continuation bytes. */
  lemma DecodeSequenceStep(s: string, b: nat, tail: seq<nat>, c: char)
    requires s != [] && s[0] == '%' && EscapedByte(s) == Some(b)
    requires SequenceLength(b) == |tail| + 1 >= 2
    requires Continuations(s[3..], |tail|) == Some(tail)
    requires CodePoint([b] + tail) == Some(c)
    ensures |s| >= 3 * (|tail| + 1)
    ensures PercentDecode(s) ==
      match PercentDecode(s[3 * (|tail| + 1)..])
      case Failure(e) => Failure(e)
      case Success(t) => Success([c] + t)
  {
  }

  /** The escapes of a valid multi-byte sequence decode to its character. */
  lemma DecodeEscapedBytes(bs: seq<nat>, c: char, rest: string)
    requires 2 <= |bs| <= 4 && SequenceLength(bs[0]) == |bs|
    requires forall i :: 0 <= i < |bs| ==> bs[i] < 256
    requires forall i :: 1 <= i < |bs| ==> IsContinuation(bs[i])
    requires CodePoint(bs) == Some(c)
    ensures PercentDecode(EscapeBytes(bs) + rest) ==
      match PercentDecode(rest)
      case Failure(e) => Failure(e)
      case Success(t) => Success([c] + t)
  {
    var tail := bs[1..];
    var s := EscapeBytes(bs) + rest;
    EscapeBytesCons(bs, rest);
    ContinuationsOf(tail, rest);
    assert [bs[0]] + tail == bs;
    DecodeSequenceStep(s, bs[0], tail, c);
    assert s[3 * (|tail| + 1)..] == rest;
  }

  /** The escaped UTF-8 bytes of a non-ASCII character decode to it. */
  lemma DecodeEscapedSequence(c: char, rest: string)
    requires !IsAscii(c)
    ensures PercentDecode(EscapeBytes(Utf8(c)) + rest) ==
      match PercentDecode(rest)
      case Failure(e) => Failure(e)
      case Success(t) => Success([c] + t)
  {
    Utf8Decodes(c);
    DecodeEscapedBytes(Utf8(c), c, rest);
  }

  lemma DecodeEncodedChar(c: char, rest: string)
    ensures PercentDecode(EncodeChar(c) + rest) ==
      match PercentDecode(rest)
      case Failure(e) => Failure(e)
      case Success(t) => Success([c] + t)
  {
    var s := EncodeChar(c) + rest;
    if IsUnreserved(c) || c == '/' {
      assert s[0] == c && s[1..] == rest;
    } else if IsAscii(c) {
      assert EncodeChar(c) == Escape(c as int);
      DecodeEscapedAscii(c, rest);
    } else {
      DecodeEscapedSequence(c, rest);
    }
  }

  /** Decoding an encoded key gives the key back, for every key. */
  lemma {:induction false} DecodeEncodeKey(key: string)
    ensures PercentDecode(EncodeKey(key)) == Success(key)
  {
    if key != [] {
      DecodeEncodeKey(key[1..]);
      DecodeEncodedChar(key[0], EncodeKey(key[1..]));
      assert [key[0]] + key[1..] == key;
    }
  }

  // ---------------------------------------------------------------- URL parsing

  /** The index of the first character of `s` in `stops`, or `|s|`. */
  function FirstOf(s: string, stops: set<char>): (k: nat)
    ensures k <= |s|
    ensures forall i :: 0 <= i < k ==> s[i] !in stops
    ensures k < |s| ==> s[k] in stops
  {
    if s == [] || s[0] in stops then 0 else 1 + FirstOf(s[1..], stops)
  }

  /** A URL scheme: an ASCII letter, then letters, digits, `+`, `-` or `.`. */
  predicate IsScheme(s: string) {
    s != [] && IsAsciiLetter(s[0])
    && forall i :: 0 <= i < |s| ==> IsAsciiLetter(s[i]) || IsDigit(s[i]) || s[i] in {'+', '-', '.'}
  }

  /** What follows `scheme://`, or `None` when the URL does not start that way. */
  function AfterScheme(url: string): Option<string> {
    var i := FirstOf(url, {':'});
    if !IsScheme(url[..i]) || |url| < i + 3 || url[i..i + 3] != "://" then None
    else Some(url[i + 3..])
  }

  /** The path after a non-empty host, up to the query or fragment; `/` when it is empty. */
  function PathAfterHost(rest: string): (p: Option<string>)
    ensures p.Some? ==> p.value != [] && p.value[0] == '/'
  {
    var h := FirstOf(rest, {'/', '?', '#'});
    if h == 0 then None
    else
      var tail := rest[h..];
      var path := tail[..FirstOf(tail, {'?', '#'})];
      Some(if path == [] then "/" else path)
  }

  /** The `pathname` of a URL of the form `scheme://host[path][?query][#fragment]`
      with a non-empty host; `None` for text not of that form. */
  function Pathname(url: string): (p: Option<string>)
    ensures p.Some? ==> p.value != [] && p.value[0] == '/'
  {
    match AfterScheme(url)
    case None => None
    case Some(rest) => PathAfterHost(rest)
  }

  /** `getS3KeyFromUrl`: a null or empty URL has no key; otherwise the key is
      the percent-decoded pathname without its leading `/`. An unparsable URL
      or a malformed escape is an error, as the exceptions thrown by `new URL`
      and `decodeURIComponent` are. */
  function KeyFromUrl(url: Option<string>): (r: Result<Option<string>, string>)
    ensures !Truthy(url) ==> r == Success(None)
    ensures r.Failure? ==> r.error == InvalidUrl || r.error == UriMalformed
    ensures r.Success? && Truthy(url) ==> r.value.Some?
  {
    if !Truthy(url) then Success(None)
    else
      match Pathname(url.value)
      case None => Failure(InvalidUrl)
      case Some(p) =>
        match PercentDecode(p[1..])
        case Failure(e) => Failure(e)
        case Success(k) => Success(Some(k))
  }

  /** What the documentation of `getS3KeyFromUrl` promises: null, not an
      exception, when the URL is invalid. A malformed escape in a URL that
      parses still throws, since the promise is about the URL. */
  function KeyFromUrlAsDocumented(url: Option<string>): (r: Result<Option<string>, string>)
    ensures KeyFromUrl(url) == Failure(InvalidUrl) ==> r == Success(None)
    ensures KeyFromUrl(url) != Failure(InvalidUrl) ==> r == KeyFromUrl(url)
    ensures r.Failure? ==> r.error == UriMalformed
  {
    match KeyFromUrl(url)
    case Failure(e) => if e == InvalidUrl then Success(None) else Failure(e)
    case Success(key) => Success(key)
  }

  lemma {:induction false} FirstOfPast(a: string, b: string, stops: set<char>)
    requires forall i :: 0 <= i < |a| ==> a[i] !in stops
    requires b == [] || b[0] in stops
    ensures FirstOf(a + b, stops) == |a|
  {
    if a != [] {
      assert (a + b)[1..] == a[1..] + b;
      FirstOfPast(a[1..], b, stops);
    } else {
      assert a + b == b;
    }
  }

  lemma HttpsIsScheme()
    ensures IsScheme("https")
  {
  }

  lemma AfterHttps(rest: string)
    ensures AfterScheme("https://" + rest) == Some(rest)
  {
    var url := "https://" + rest;
    FirstOfPast("https", "://" + rest, {':'});
    assert "https" + ("://" + rest) == url;
    assert url[..5] == "https";
    HttpsIsScheme();
    assert url[5..8] == "://";
    assert url[8..] == rest;
  }

  lemma PathAfterHostOf(host: string, path: string)
    requires IsHost(host)
    requires path != [] && path[0] == '/'
    requires forall i :: 0 <= i < |path| ==> path[i] != '?' && path[i] != '#'
    ensures PathAfterHost(host + path) == Some(path)
  {
    var rest := host + path;
    FirstOfPast(host, path, {'/', '?', '#'});
    assert rest[|host|..] == path;
    FirstOfPast(path, [], {'?', '#'});
    assert path + [] == path;
    assert path[..|path|] == path;
  }

  lemma PathnameOfObjectUrl(host: string, key: string)
    requires IsHost(host)
    ensures Pathname(ObjectUrl(host, key)) == Some("/" + EncodeKey(key))
  {
    var e := EncodeKey(key);
    assert ObjectUrl(host, key) == "https://" + (host + ("/" + e));
    AfterHttps(host + ("/" + e));
    PathAfterHostOf(host, "/" + e);
  }

  /** The key of an object is recovered from the URL it is recorded at, for
      every plain host name and every key without dot segments. */
  lemma KeyFromObjectUrl(host: string, key: string)
    requires IsHost(host) && NoDotSegments(key)
    ensures KeyFromUrl(Some(ObjectUrl(host, key))) == Success(Some(key))
  {
    PathnameOfObjectUrl(host, key);
    assert ("/" + EncodeKey(key))[1..] == EncodeKey(key);
    DecodeEncodeKey(key);
  }

  lemma EncodeKeyOfPlain(key: string)
    requires forall i :: 0 <= i < |key| ==> IsUnreserved(key[i]) || key[i] == '/'
    ensures EncodeKey(key) == key
  {
    if key != [] {
      EncodeKeyOfPlain(key[1..]);
      assert [key[0]] + key[1..] == key;
    }
  }

  lemma ExampleHost(h: string)
    requires h == "my-bucket.s3.amazonaws.com"
    ensures IsHost(h)
  {
    assert forall i :: 0 <= i < |h| ==> h[i] in {'m', 'y', '-', 'b', 'u', 'c', 'k', 'e', 't', '.', 's', '3', 'a', 'z', 'o', 'n', 'w'};
    assert forall i :: 0 <= i < |h| && h[i] == '-' ==> i == 2;
    assert TopLabelAt(h, |h| - 3);
  }

  /** Text with no `/`, which stays within one segment of a key. */
  predicate NoSlash(s: string) {
    forall i :: 0 <= i < |s| ==> s[i] != '/'
  }

  lemma NoSlashJoin(a: string, b: string)
    requires NoSlash(a) && NoSlash(b)
    ensures NoSlash(a + b)
  {
  }

  /** A single segment that is not a dot segment. */
  lemma NoDotSegmentsOfSegment(seg: string)
    requires NoSlash(seg)
    requires seg != "." && seg != ".."
    ensures NoDotSegments(seg)
  {
    FirstOfPast(seg, [], {'/'});
    assert seg + [] == seg;
    assert seg[..|seg|] == seg;
  }

  /** A segment that is not a dot segment, in front of a key without them. */
  lemma NoDotSegmentsCons(seg: string, rest: string)
    requires NoSlash(seg)
    requires seg != "." && seg != ".."
    requires NoDotSegments(rest)
    ensures NoDotSegments(seg + "/" + rest)
  {
    var key := seg + "/" + rest;
    assert key == seg + ("/" + rest);
    FirstOfPast(seg, "/" + rest, {'/'});
    assert key[..|seg|] == seg;
    assert key[|seg| + 1..] == rest;
  }

  lemma ExampleKeyIsPlain(k: string)
    requires k == "folder/image.jpg"
    ensures EncodeKey(k) == k
  {
    assert forall i :: 0 <= i < |k| ==> k[i] in {'f', 'o', 'l', 'd', 'e', 'r', '/', 'i', 'm', 'a', 'g', '.', 'j', 'p'};
    EncodeKeyOfPlain(k);
  }

  lemma ExampleKeyHasNoDotSegments(k: string)
    requires k == "folder/image.jpg"
    ensures NoDotSegments(k)
  {
    var folder, file := k[..6], k[7..];
    assert folder == "folder" && file == "image.jpg";
    NoDotSegmentsOfSegment(file);
    NoDotSegmentsCons(folder, file);
    assert folder + "/" + file == k;
  }

  /** The documented example: the key of
      `https://my-bucket.s3.amazonaws.com/folder/image.jpg` is `folder/image.jpg`. */
  lemma KeyFromUrlExample(host: string, key: string)
    requires host == "my-bucket.s3.amazonaws.com" && key == "folder/image.jpg"
    ensures KeyFromUrl(Some("https://" + host + "/" + key)) == Success(Some(key))
  {
    ExampleHost(host);
    ExampleKeyIsPlain(key);
    ExampleKeyHasNoDotSegments(key);
    KeyFromObjectUrl(host, key);
  }

  /** A URL with nothing after the host has the empty key, which `deleteS3File` ignores. */
  lemma KeyOfBareHost(host: string)
    requires IsHost(host)
    ensures KeyFromUrl(Some("https://" + host)) == Success(Some(""))
  {
    AfterHttps(host);
    FirstOfPast(host, [], {'/', '?', '#'});
    assert host + [] == host;
  }

  /** Text without a scheme is not a URL. */
  lemma KeyFromUrlRejectsPlainText(s: string)
    requires s != []
    requires forall i :: 0 <= i < |s| ==> s[i] != ':'
    ensures KeyFromUrl(Some(s)) == Failure(InvalidUrl)
  {
    assert FirstOf(s, {':'}) == |s|;
  }
}
