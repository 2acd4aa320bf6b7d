/** How a bearer token travels: as a WebSocket subprotocol entry, and percent-encoded in a query. */
module TokenTransport {
  import opened Text

  // ----- Subprotocol entries -----

  /** `s.split(c)`. */
  function Split(s: string, c: char): (parts: seq<string>)
    ensures parts != [] && forall i :: 0 <= i < |parts| ==> c !in parts[i]
    decreases |s|
  {
    match SplitOnce(s, c)
    case None => [s]
    case Some((a, b)) => [a] + Split(b, c)
  }

  function Join(parts: seq<string>, c: char): string
    requires parts != []
  {
    if |parts| == 1 then parts[0] else parts[0] + [c] + Join(parts[1..], c)
  }

  /** The characters a header value may hold to be readable as text. */
  predicate Readable(value: string) {
    forall i :: 0 <= i < |value| ==> ' ' <= value[i] <= '~' || value[i] == '\t'
  }

  /** The entry as echoed back, and the token it carries. */
  datatype Offer = Offer(protocol: string, token: string)

  /** The offer made by one trimmed entry, if any. */
  function TrimmedOffer(t: string): Option<Offer> {
    if "Bearer." <= t then
      if t[7..] != [] then Some(Offer(t, t[7..])) else None
    else if "Bearer " <= t then
      var token := TrimStart(t[7..]);
      if token != [] then Some(Offer(t, token)) else None
    else None
  }

  function EntryOffer(entry: string): Option<Offer> { TrimmedOffer(Trim(entry)) }

  /** All entries of all readable header lines, in order. */
  function Entries(headers: seq<string>): seq<string> {
    if headers == [] then []
    else (if Readable(headers[0]) then Split(headers[0], ',') else []) + Entries(headers[1..])
  }

  /** The first entry for which `offer` finds something. */
  function First(offer: string -> Option<Offer>, entries: seq<string>): Option<Offer> {
    if entries == [] then None
    else if offer(entries[0]).Some? then offer(entries[0])
    else First(offer, entries[1..])
  }

  function ParseBearer(headers: seq<string>): Option<Offer> { First(EntryOffer, Entries(headers)) }

  /** The inner loop of `parse_bearer_subprotocol`. */
  method ScanEntries(entries: seq<string>) returns (r: Option<Offer>)
    ensures r == First(EntryOffer, entries)
  {
    for i := 0 to |entries|
      invariant First(EntryOffer, entries) == First(EntryOffer, entries[i..])
    {
      r := EntryOffer(entries[i]);
      assert entries[i..][1..] == entries[i + 1..];
      if r.Some? { return; }
    }
    r := None;
  }

  /** `parse_bearer_subprotocol`. */
  method ParseBearerSubprotocol(headers: seq<string>) returns (r: Option<Offer>)
    ensures r == ParseBearer(headers)
  {
    for i := 0 to |headers|
      invariant ParseBearer(headers) == ParseBearer(headers[i..])
    {
      assert headers[i..][1..] == headers[i + 1..];
      if Readable(headers[i]) {
        r := ScanEntries(Split(headers[i], ','));
        FirstConcat(EntryOffer, Split(headers[i], ','), Entries(headers[i + 1..]));
        if r.Some? { return; }
      } else {
        assert [] + Entries(headers[i + 1..]) == Entries(headers[i + 1..]);
      }
    }
    r := None;
  }

  lemma {:induction false} FirstConcat(offer: string -> Option<Offer>, a: seq<string>, b: seq<string>)
    ensures First(offer, a + b) == if First(offer, a).Some? then First(offer, a) else First(offer, b)
  {
    if a == [] {
      assert a + b == b;
    } else {
      assert (a + b)[0] == a[0] && (a + b)[1..] == a[1..] + b;
      FirstConcat(offer, a[1..], b);
    }
  }

  lemma {:induction false} FirstNone(offer: string -> Option<Offer>, entries: seq<string>)
    requires forall i :: 0 <= i < |entries| ==> offer(entries[i]).None?
    ensures First(offer, entries).None?
  {
    if entries != [] { FirstNone(offer, entries[1..]); }
  }

  lemma {:induction false} SplitJoin(parts: seq<string>, c: char)
    requires parts != [] && forall i :: 0 <= i < |parts| ==> c !in parts[i]
    ensures Split(Join(parts, c), c) == parts
  {
    if |parts| > 1 {
      SplitOnceAt(parts[0], c, Join(parts[1..], c));
      SplitJoin(parts[1..], c);
    }
  }

  lemma {:induction false} EntriesAppend(before: seq<string>, after: seq<string>)
    ensures Entries(before + after) == Entries(before) + Entries(after)
  {
    if before == [] {
      assert before + after == after;
    } else {
      assert (before + after)[0] == before[0] && (before + after)[1..] == before[1..] + after;
      EntriesAppend(before[1..], after);
    }
  }

  /** A token that can be carried. */
  predicate Carriable(token: string) {
    token != [] && ',' !in token && !IsWhitespace(token[|token| - 1])
  }

  lemma {:induction false} TrimmedToOffer(entry: string, token: string)
    requires Carriable(token) && Trim(entry) == "Bearer." + token
    ensures EntryOffer(entry) == Some(Offer("Bearer." + token, token))
  {
    var t := "Bearer." + token;
    assert t[..7] == "Bearer." && t[7..] == token;
  }

  lemma {:induction false} BearerEnds(token: string)
    requires Carriable(token)
    ensures var t := "Bearer." + token; !IsWhitespace(t[0]) && !IsWhitespace(t[|t| - 1])
  {
    var t := "Bearer." + token;
    assert t[0] == 'B' && t[|t| - 1] == token[|token| - 1];
  }

  lemma {:induction false} OfferOf(left: string, token: string, right: string)
    requires Carriable(token) && AllBlank(left) && AllBlank(right)
    ensures EntryOffer(left + ("Bearer." + token) + right) == Some(Offer("Bearer." + token, token))
  {
    BearerEnds(token);
    TrimPadded(left, "Bearer." + token, right);
    TrimmedToOffer(left + ("Bearer." + token) + right, token);
  }

  lemma {:induction false} LineDelivered(offer: string -> Option<Offer>, pre: seq<string>, entry: string,
                                         post: seq<string>)
    requires forall i :: 0 <= i < |pre| ==> ',' !in pre[i] && offer(pre[i]).None?
    requires forall i :: 0 <= i < |post| ==> ',' !in post[i]
    requires ',' !in entry && offer(entry).Some? && Readable(Join(pre + [entry] + post, ','))
    ensures First(offer, Entries([Join(pre + [entry] + post, ',')])) == offer(entry)
  {
    var parts := pre + [entry] + post;
    SplitJoin(parts, ',');
    assert Entries([Join(parts, ',')]) == parts;
    FirstNone(offer, pre);
    FirstConcat(offer, pre, [entry] + post);
    assert parts == pre + ([entry] + post);
  }

  lemma {:induction false} SpacedPrefix(rest: string)
    ensures var t := "Bearer " + rest; "Bearer " <= t && !("Bearer." <= t) && t[7..] == rest
  {
    var t := "Bearer " + rest;
    assert t[6] == ' ' && "Bearer."[6] == '.';
  }

  lemma {:induction false} GapTrimmed(gap: string, token: string)
    requires AllBlank(gap) && token != [] && !IsWhitespace(token[0])
    ensures TrimStart(gap + token) == token
  {
    TrimStartPadded(gap, token);
  }

  /** The other form an entry may take: a space, any more blanks, and the token. */
  lemma {:induction false} SpacedOffer(gap: string, token: string)
    requires AllBlank(gap) && token != [] && !IsWhitespace(token[0])
    ensures TrimmedOffer("Bearer " + (gap + token)) == Some(Offer("Bearer " + (gap + token), token))
  {
    SpacedPrefix(gap + token);
    GapTrimmed(gap, token);
  }

  lemma {:induction false} PrefixSplit(prefix: string, t: string)
    requires prefix <= t
    ensures t == prefix + t[|prefix|..]
  {
  }

  /** `t` is a prefix, then blanks, then the token. */
  ghost predicate Spaced(prefix: string, t: string, token: string) {
    exists gap :: AllBlank(gap) && t == prefix + gap + token
  }

  lemma {:induction false} GapBefore(rest: string) returns (gap: string)
    ensures AllBlank(gap) && rest == gap + TrimStart(rest)
  {
    gap := rest[..|rest| - |TrimStart(rest)|];
    TrimStartRemoves(rest);
  }

  lemma {:induction false} SpacedBy(prefix: string, gap: string, token: string, t: string)
    requires AllBlank(gap) && t == prefix + (gap + token)
    ensures Spaced(prefix, t, token)
  {
    assert t == prefix + gap + token;
  }

  lemma {:induction false} SpacedForm(prefix: string, rest: string)
    ensures Spaced(prefix, prefix + rest, TrimStart(rest))
  {
    var gap := GapBefore(rest);
    SpacedBy(prefix, gap, TrimStart(rest), prefix + rest);
  }

  lemma {:induction false} OfferFormsTrimmed(t: string)
    requires TrimmedOffer(t).Some?
    ensures
      var o := TrimmedOffer(t).value;
      && o.protocol == t && o.token != []
      && (t == "Bearer." + o.token || Spaced("Bearer ", t, o.token))
  {
    if "Bearer." <= t {
      PrefixSplit("Bearer.", t);
    } else {
      PrefixSplit("Bearer ", t);
      SpacedForm("Bearer ", t[|"Bearer "|..]);
    }
  }

  /** An entry makes an offer only in one of the two forms, and echoes itself without the blanks around it. */
  lemma {:induction false} OfferForms(entry: string)
    requires EntryOffer(entry).Some?
    ensures
      var o, t := EntryOffer(entry).value, Trim(entry);
      && o.protocol == t && o.token != []
      && (t == "Bearer." + o.token || Spaced("Bearer ", t, o.token))
  {
    OfferFormsTrimmed(Trim(entry));
  }

  /** The client's entry is found among any other protocols and header lines, as long as no entry before it
      makes an offer. */
  lemma {:induction false} TokenDelivered(before: seq<string>, pre: seq<string>, left: string, token: string,
                                          right: string, post: seq<string>, after: seq<string>)
    requires Carriable(token) && AllBlank(left) && AllBlank(right)
    requires forall i :: 0 <= i < |pre| ==> ',' !in pre[i] && EntryOffer(pre[i]).None?
    requires forall i :: 0 <= i < |post| ==> ',' !in post[i]
    requires forall i :: 0 <= i < |Entries(before)| ==> EntryOffer(Entries(before)[i]).None?
    requires Readable(Join(pre + [left + ("Bearer." + token) + right] + post, ','))
    ensures ParseBearer(before + [Join(pre + [left + ("Bearer." + token) + right] + post, ',')] + after)
         == Some(Offer("Bearer." + token, token))
  {
    var line := Join(pre + [left + ("Bearer." + token) + right] + post, ',');
    OfferOf(left, token, right);
    NoCommaInEntry(left, token, right);
    LineDelivered(EntryOffer, pre, left + ("Bearer." + token) + right, post);
    EntriesAppend(before + [line], after);
    EntriesAppend(before, [line]);
    FirstNone(EntryOffer, Entries(before));
    FirstConcat(EntryOffer, Entries(before + [line]), Entries(after));
    FirstConcat(EntryOffer, Entries(before), Entries([line]));
  }

  lemma {:induction false} NoCommaInEntry(left: string, token: string, right: string)
    requires AllBlank(left) && ',' !in token && AllBlank(right)
    ensures ',' !in left + ("Bearer." + token) + right && ',' !in "Bearer." + token
  {
  }

  lemma {:induction false} TrimKeepsOut(s: string, c: char)
    requires c !in s
    ensures c !in Trim(s)
  {
  }

  predicate EndsInk(t: string) { t != [] ==> !IsWhitespace(t[|t| - 1]) }

  lemma {:induction false} TrimLast(s: string)
    ensures EndsInk(Trim(s))
  {
    var e := TrimEnd(s);
    var t := TrimStart(e);
    assert t != [] ==> t[|t| - 1] == e[|e| - 1];
  }

  lemma {:induction false} SuffixCarriable(t: string, k: nat)
    requires k < |t| && ',' !in t && !IsWhitespace(t[|t| - 1])
    ensures Carriable(t[k..])
  {
  }

  lemma {:induction false} TrimmedOfferCarriable(t: string)
    requires ',' !in t && TrimmedOffer(t).Some? && EndsInk(t)
    ensures Carriable(TrimmedOffer(t).value.token)
  {
    if "Bearer." <= t {
      SuffixCarriable(t, 7);
    } else {
      SuffixCarriable(t, |t| - |TrimStart(t[7..])|);
    }
  }

  lemma {:induction false} OffersAreCarriable(entry: string)
    requires ',' !in entry && EntryOffer(entry).Some?
    ensures Carriable(EntryOffer(entry).value.token)
  {
    TrimKeepsOut(entry, ',');
    TrimLast(entry);
    TrimmedOfferCarriable(Trim(entry));
  }

  lemma {:induction false} FirstOfferCarriable(entries: seq<string>)
    requires forall i :: 0 <= i < |entries| ==> ',' !in entries[i]
    requires First(EntryOffer, entries).Some?
    ensures Carriable(First(EntryOffer, entries).value.token)
  {
    if EntryOffer(entries[0]).Some? {
      OffersAreCarriable(entries[0]);
    } else {
      FirstOfferCarriable(entries[1..]);
    }
  }

  lemma {:induction false} BareOffer(token: string)
    requires Carriable(token)
    ensures EntryOffer("Bearer." + token) == Some(Offer("Bearer." + token, token))
  {
    BearerEnds(token);
    TrimFixed("Bearer." + token);
    TrimmedToOffer("Bearer." + token, token);
  }

  lemma {:induction false} AloneDelivered(offer: string -> Option<Offer>, entry: string)
    requires ',' !in entry && Readable(entry) && offer(entry).Some?
    ensures First(offer, Entries([entry])) == offer(entry)
  {
    assert [] + [entry] + [] == [entry];
    LineDelivered(offer, [], entry, []);
  }

  lemma {:induction false} SingleOfferDelivered(token: string)
    requires Carriable(token) && Readable(token)
    ensures ParseBearer(["Bearer." + token]) == Some(Offer("Bearer." + token, token))
  {
    ReadableTail(token);
    BareOffer(token);
    NoCommaInEntry([], token, []);
    AloneDelivered(EntryOffer, "Bearer." + token);
  }

  lemma {:induction false} SingleOfferRefused(token: string)
    requires !(Carriable(token) && Readable(token))
    ensures ParseBearer(["Bearer." + token]) != Some(Offer("Bearer." + token, token))
  {
    ReadableTail(token);
    LineEntries("Bearer." + token);
    if ParseBearer(["Bearer." + token]).Some? { FirstOfferCarriable(Entries(["Bearer." + token])); }
  }

  /** A client offering only its token gets it across exactly when the token is not empty, has no comma, does not end
      in white space, and holds only printable ASCII characters and tabs. */
  lemma {:induction false} SingleOfferExact(token: string)
    ensures ParseBearer(["Bearer." + token]) == Some(Offer("Bearer." + token, token))
       <==> && token != [] && ',' !in token && !IsWhitespace(token[|token| - 1])
            && forall i :: 0 <= i < |token| ==> 0x20 <= token[i] as int <= 0x7E || token[i] as int == 9
  {
    if Carriable(token) && Readable(token) { SingleOfferDelivered(token); } else { SingleOfferRefused(token); }
  }

  lemma {:induction false} LineEntries(line: string)
    ensures Entries([line]) == if Readable(line) then Split(line, ',') else []
  {
  }

  lemma {:induction false} ReadableTail(token: string)
    ensures Readable("Bearer." + token) <==> Readable(token)
  {
    var entry := "Bearer." + token;
    assert forall i :: 0 <= i < |token| ==> token[i] == entry[i + 7];
    assert forall i :: 0 <= i < 7 ==> entry[i] == "Bearer."[i];
  }

  // ----- Percent encoding -----

  type Byte = n: int | 0 <= n < 256

  predicate Unreserved(b: int) {
    || 'a' as int <= b <= 'z' as int || 'A' as int <= b <= 'Z' as int || '0' as int <= b <= '9' as int
    || b == '-' as int || b == '_' as int || b == '.' as int || b == '~' as int
  }

  function Hex(d: nat): char
    requires d < 16
  {
    if d < 10 then ('0' as int + d) as char else ('A' as int + d - 10) as char
  }

  /** Upper-case hexadecimal digits. */
  function HexValue(c: char): (r: Option<nat>)
    ensures r.Some? ==> r.value < 16
  {
    if '0' <= c <= '9' then Some(c as int - '0' as int)
    else if 'A' <= c <= 'F' then Some(c as int - 'A' as int + 10)
    else None
  }

  function EncodeByte(b: Byte): string {
    if Unreserved(b) then [b as char] else ['%', Hex(b / 16), Hex(b % 16)]
  }

  function Encode(bytes: seq<Byte>): string {
    if bytes == [] then [] else EncodeByte(bytes[0]) + Encode(bytes[1..])
  }

  /** `url_encode`. */
  method UrlEncode(bytes: seq<Byte>) returns (out: string)
    ensures out == Encode(bytes)
  {
    out := [];
    for i := 0 to |bytes|
      invariant out + Encode(bytes[i..]) == Encode(bytes)
    {
      assert bytes[i..][1..] == bytes[i + 1..];
      assert (out + EncodeByte(bytes[i])) + Encode(bytes[i + 1..]) == out + Encode(bytes[i..]);
      out := out + EncodeByte(bytes[i]);
    }
  }

  /** Section 2.1 of RFC 3986, reading triplets in upper case. Other characters stand for themselves. */
  function Decode(s: string): Option<seq<Byte>>
    decreases |s|
  {
    if s == [] then Some([])
    else if s[0] == '%' then
      if |s| < 3 || HexValue(s[1]).None? || HexValue(s[2]).None? then None
      else Prepend(16 * HexValue(s[1]).value + HexValue(s[2]).value, Decode(s[3..]))
    else if s[0] as int < 128 then Prepend(s[0] as int, Decode(s[1..]))
    else None
  }

  function Prepend(b: Byte, rest: Option<seq<Byte>>): Option<seq<Byte>> {
    if rest.Some? then Some([b] + rest.value) else None
  }

  /** Only unreserved characters, and triplets for the other bytes. */
  predicate Canonical(s: string)
    decreases |s|
  {
    || s == []
    || (Unreserved(s[0] as int) && Canonical(s[1..]))
    || (s[0] == '%' && |s| >= 3 && HexValue(s[1]).Some? && HexValue(s[2]).Some?
        && !Unreserved(16 * HexValue(s[1]).value + HexValue(s[2]).value) && Canonical(s[3..]))
  }

  /** Decoding inverts encoding on every byte string, and the encoding is canonical. */
  lemma {:induction false} UrlRoundTrip(bytes: seq<Byte>)
    ensures Decode(Encode(bytes)) == Some(bytes) && Canonical(Encode(bytes))
  {
    if bytes != [] {
      UrlRoundTrip(bytes[1..]);
      var s, head := Encode(bytes), EncodeByte(bytes[0]);
      assert s[|head|..] == Encode(bytes[1..]);
      assert [bytes[0]] + bytes[1..] == bytes;
    }
  }

  /** Letters, digits and -._~ stay as they are; every other byte becomes a percent sign and two upper-case
      hexadecimal digits. */
  lemma {:induction false} EncodeOne(b: Byte)
    ensures
      var c := b as char;
      if 'A' <= c <= 'Z' || 'a' <= c <= 'z' || '0' <= c <= '9' || c == '-' || c == '.' || c == '_' || c == '~'
      then Encode([b]) == [c]
      else Encode([b]) == ['%', "0123456789ABCDEF"[b / 16], "0123456789ABCDEF"[b % 16]]
  {
    assert [b][1..] == [];
    assert EncodeByte(b) + [] == EncodeByte(b);
    HexDigits(b / 16);
    HexDigits(b % 16);
  }

  lemma {:induction false} HexDigits(d: nat)
    requires d < 16
    ensures Hex(d) == "0123456789ABCDEF"[d]
  {
  }

  lemma {:induction false} TripletEncodes(x: char, y: char)
    requires HexValue(x).Some? && HexValue(y).Some? && !Unreserved(16 * HexValue(x).value + HexValue(y).value)
    ensures EncodeByte(16 * HexValue(x).value + HexValue(y).value) == ['%', x, y]
  {
  }

  lemma {:induction false} EncodeCons(b: Byte, rest: seq<Byte>)
    ensures Encode([b] + rest) == EncodeByte(b) + Encode(rest)
  {
    assert ([b] + rest)[1..] == rest;
  }

  /** Every canonical text is the encoding of what it decodes to, so encoding reaches all of them. */
  lemma {:induction false} CanonicalIsEncoding(s: string)
    requires Canonical(s)
    ensures Decode(s).Some? && Encode(Decode(s).value) == s
    decreases |s|
  {
    if s != [] && s[0] == '%' {
      CanonicalIsEncoding(s[3..]);
      TripletEncodes(s[1], s[2]);
      EncodeCons(16 * HexValue(s[1]).value + HexValue(s[2]).value, Decode(s[3..]).value);
      assert s == ['%', s[1], s[2]] + s[3..];
    } else if s != [] {
      CanonicalIsEncoding(s[1..]);
      EncodeCons(s[0] as int, Decode(s[1..]).value);
      assert s == [s[0]] + s[1..];
    }
  }
}
