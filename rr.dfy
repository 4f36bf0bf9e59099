/**
 The record normaliser of package dnsr (rr.go): the flat resource record `RR`,
 its one-line text form, and `convertRR`, which turns a parsed DNS record into
 an `RR` by a type switch over SOA, NS, CNAME, A, AAAA and TXT, with a generic
 fallback that re-reads the record's zone-file text.

 Two helpers that live outside rr.go are parameters of the model:
 `lower` stands for `toLowerFQDN`, and `classes` for the library table
 `dns.ClassToString` (a Go map, so a missing key reads as "").
 */
module Dnsr {
  import opened GoText

  type uint16 = n: nat | n < 0x1_0000
  type uint32 = n: nat | n < 0x1_0000_0000

  datatype Option<T> = None | Some(value: T)

  /** `RR`: a DNS resource record reduced to text fields and a TTL. */
  datatype RR = RR(name: string, rrType: string, value: string, rrClass: string, ttl: uint32)
  {
    /** `(*RR).String`: name, TTL, class, type and value on one line, separated
        by a tab (followed by six spaces before the TTL and one space before
        the class). */
    function String(): (line: string)
      ensures |line| >= |name| + |value| + 11
      ensures line[..|name|] == name
      ensures line[|line| - |value|..] == value
    {
      name + "\t      " + NatToDec(ttl) + "\t " + rrClass + "\t" + rrType + "\t" + value
    }
  }

  /** The zero value `RR{}` that a failed conversion returns. */
  const Zero := RR("", "", "", "", 0)

  /** The address ICANN asks servers to answer for names of newly delegated
      top-level domains that may collide with private names. */
  const NameCollision := "127.0.53.53"

  /** The common header of a parsed record: owner name, class code and TTL. */
  datatype Header = Header(name: string, classCode: uint16, ttl: uint32)

  /** A record as the DNS library hands it over. The address of an A or AAAA
      record is carried as its rendered text; a record of any other type is
      carried only as the zone-file text the library renders for it. */
  datatype WireRecord =
    | SOA(hdr: Header, ns: string)
    | NS(hdr: Header, ns: string)
    | CNAME(hdr: Header, target: string)
    | A(hdr: Header, addr: string)
    | AAAA(hdr: Header, addr: string)
    | TXT(hdr: Header, txt: seq<string>)
    | Other(rendered: string)

  /** `dns.ClassToString[c]`, with Go's zero value for a missing key. */
  function ClassName(classes: map<uint16, string>, c: uint16): (r: string)
    ensures r in classes.Values || r == ""
    ensures c in classes ==> r == classes[c]
    ensures c !in classes ==> r == ""
  {
    if c in classes then classes[c] else ""
  }

  /** `convertRR`: the normalised record and whether conversion succeeded.
      Only the fallback can fail, and it fails exactly when the record's text
      has fewer than four fields; a failure yields the zero record. */
  function ConvertRR(drr: WireRecord, lower: string -> string, classes: map<uint16, string>)
    : (res: (RR, bool))
    ensures res.1 <==> (drr.Other? ==> |Fields(drr.rendered)| >= 4)
    ensures !res.1 ==> res.0 == Zero
    ensures res.1 ==> res.0.rrType != [] && NoSpace(res.0.rrType)
  {
    match drr
    case SOA(h, ns) => (RR(lower(h.name), "SOA", lower(ns), ClassName(classes, h.classCode), h.ttl), true)
    case NS(h, ns) => (RR(lower(h.name), "NS", lower(ns), ClassName(classes, h.classCode), h.ttl), true)
    case CNAME(h, target) => (RR(lower(h.name), "CNAME", lower(target), ClassName(classes, h.classCode), h.ttl), true)
    case A(h, addr) => (RR(lower(h.name), "A", addr, ClassName(classes, h.classCode), h.ttl), true)
    case AAAA(h, addr) => (RR(lower(h.name), "AAAA", addr, ClassName(classes, h.classCode), h.ttl), true)
    case TXT(h, txt) => (RR(lower(h.name), "TXT", Join(txt, "\t"), ClassName(classes, h.classCode), h.ttl), true)
    case Other(rendered) =>
      var fields := Fields(rendered);
      if |fields| >= 4 then (RR(lower(fields[0]), fields[3], Join(fields[4..], "\t"), "", 0), true)
      else (Zero, false)
  }

  // ---------------------------------------------------------------------
  // The typed branches

  /** Every explicitly typed record converts, keeping the header: the owner
      name goes through `toLowerFQDN`, the class through the class table and
      the TTL unchanged. */
  lemma TypedBranchesSucceed(drr: WireRecord, lower: string -> string, classes: map<uint16, string>)
    requires !drr.Other?
    ensures var (r, ok) := ConvertRR(drr, lower, classes);
      && ok
      && r.name == lower(drr.hdr.name)
      && r.rrClass == ClassName(classes, drr.hdr.classCode)
      && r.ttl == drr.hdr.ttl
      && (drr.SOA? ==> r.rrType == "SOA")
      && (drr.NS? ==> r.rrType == "NS")
      && (drr.CNAME? ==> r.rrType == "CNAME")
      && (drr.A? ==> r.rrType == "A")
      && (drr.AAAA? ==> r.rrType == "AAAA")
      && (drr.TXT? ==> r.rrType == "TXT")
  {
  }

  /** SOA, NS and CNAME records carry a domain name as their value, and it is
      normalised like the owner name. */
  lemma NameValuesNormalised(drr: WireRecord, lower: string -> string, classes: map<uint16, string>)
    requires drr.SOA? || drr.NS? || drr.CNAME?
    ensures var r := ConvertRR(drr, lower, classes).0;
      r.value == lower(if drr.CNAME? then drr.target else drr.ns)
  {
  }

  /** A and AAAA records carry their address text through unchanged. */
  lemma AddressKeptVerbatim(drr: WireRecord, lower: string -> string, classes: map<uint16, string>)
    requires drr.A? || drr.AAAA?
    ensures ConvertRR(drr, lower, classes).0.value == drr.addr
  {
  }

  /** The TXT value is the segments joined by tabs, in order: when no segment
      holds a tab, splitting the value on tabs gives the segments back, and
      in every case re-joining the tab-separated pieces gives the value. */
  lemma {:induction false} TxtSegmentsRecoverable(h: Header, txt: seq<string>, lower: string -> string, classes: map<uint16, string>)
    ensures var r := ConvertRR(TXT(h, txt), lower, classes).0;
      && r.value == Join(txt, "\t")
      && (txt == [] ==> r.value == "")
      && ((|txt| >= 1 && forall i :: 0 <= i < |txt| ==> '\t' !in txt[i]) ==> Split(r.value, '\t') == txt)
      && Join(Split(r.value, '\t'), "\t") == r.value
  {
    var v := Join(txt, "\t");
    if |txt| >= 1 && forall i :: 0 <= i < |txt| ==> '\t' !in txt[i] {
      SplitOfJoin(txt, '\t');
    }
    JoinOfSplit(v, '\t');
  }

  // ---------------------------------------------------------------------
  // The fallback

  /** The fallback for any other record type succeeds exactly when its text
      has at least four fields; then field 0 (normalised) is the name, field 3
      the type, the fields from 4 on joined by tabs the value, and class and
      TTL stay empty. The value splits back into exactly those trailing
      fields. */
  lemma {:induction false} FallbackConversion(rendered: string, lower: string -> string, classes: map<uint16, string>)
    ensures var (r, ok) := ConvertRR(Other(rendered), lower, classes);
      var f := Fields(rendered);
      && (ok <==> |f| >= 4)
      && (ok ==> && r.name == lower(f[0])
                 && r.rrType == f[3]
                 && r.value == Join(f[4..], "\t")
                 && Fields(r.value) == f[4..]
                 && r.rrClass == ""
                 && r.ttl == 0)
      && (|f| == 4 ==> r.value == "")
      && (|f| == 5 ==> r.value == f[4])
  {
    var f := Fields(rendered);
    if |f| >= 4 {
      FieldsOfJoin(f[4..], '\t');
    }
  }

  /** The zone-file layout of a record: owner, TTL, class and type, each
      followed by a tab, then the record data as free text (for most types,
      its fields separated by spaces). The lemmas below require an owner name
      without white space; an owner the library prints with an escaped space
      (`a\ b.`) is cut in two by `Fields`, so that layout does not apply to it. */
  function ZoneLine(owner: string, ttlText: string, classText: string, tag: string, data: string): string {
    owner + "\t" + ttlText + "\t" + classText + "\t" + tag + "\t" + data
  }

  /** A record rendered in the zone-file layout comes out of the fallback
      with its owner (normalised), its type, and the fields of its data joined
      by tabs; the TTL and class text are dropped. */
  lemma {:induction false} FallbackOfZoneLine(
    owner: string, ttlText: string, classText: string, tag: string, data: string,
    lower: string -> string, classes: map<uint16, string>)
    requires owner != [] && NoSpace(owner) && ttlText != [] && NoSpace(ttlText)
    requires classText != [] && NoSpace(classText) && tag != [] && NoSpace(tag)
    ensures ConvertRR(Other(ZoneLine(owner, ttlText, classText, tag, data)), lower, classes)
         == (RR(lower(owner), tag, Join(Fields(data), "\t"), "", 0), true)
  {
    var line := ZoneLine(owner, ttlText, classText, tag, data);
    LineOfWords(owner, ttlText, classText, tag, data);
    ZoneLineFields(owner, ttlText, classText, tag, data);
    var f := Fields(line);
    assert f[0] == owner && f[3] == tag && f[4..] == Fields(data);
  }

  /** Record data written as words separated by spaces (MX `10 mail.example.com.`)
      arrives as those words separated by tabs. */
  lemma {:induction false} FallbackTabsSpacedData(
    owner: string, ttlText: string, classText: string, tag: string, rdata: seq<string>,
    lower: string -> string, classes: map<uint16, string>)
    requires owner != [] && NoSpace(owner) && ttlText != [] && NoSpace(ttlText)
    requires classText != [] && NoSpace(classText) && tag != [] && NoSpace(tag)
    requires forall i :: 0 <= i < |rdata| ==> rdata[i] != [] && NoSpace(rdata[i])
    ensures ConvertRR(Other(ZoneLine(owner, ttlText, classText, tag, Join(rdata, " "))), lower, classes).0.value
         == Join(rdata, "\t")
  {
    FallbackOfZoneLine(owner, ttlText, classText, tag, Join(rdata, " "), lower, classes);
    FieldsOfJoin(rdata, ' ');
  }

  /** The fields of a zone-file line are the four header words followed by the
      fields of the data. */
  lemma {:induction false} ZoneLineFields(owner: string, ttlText: string, classText: string, tag: string, data: string)
    requires owner != [] && NoSpace(owner) && ttlText != [] && NoSpace(ttlText)
    requires classText != [] && NoSpace(classText) && tag != [] && NoSpace(tag)
    ensures Fields(owner + ['\t'] + (ttlText + ['\t'] + (classText + ['\t'] + (tag + ['\t'] + data))))
         == [owner, ttlText, classText, tag] + Fields(data)
  {
    FieldsAfterTwoWords(classText, tag, data);
    FieldsAfterTwoWords(owner, ttlText, classText + ['\t'] + (tag + ['\t'] + data));
  }

  lemma {:induction false} FieldsAfterTwoWords(u: string, v: string, t: string)
    requires u != [] && NoSpace(u) && v != [] && NoSpace(v)
    ensures Fields(u + ['\t'] + (v + ['\t'] + t)) == [u, v] + Fields(t)
  {
    FieldsAfterWord(v, '\t', t);
    FieldsAfterWord(u, '\t', v + ['\t'] + t);
  }

  lemma {:induction false} LineOfWords(owner: string, ttlText: string, classText: string, tag: string, data: string)
    ensures ZoneLine(owner, ttlText, classText, tag, data)
         == owner + ['\t'] + (ttlText + ['\t'] + (classText + ['\t'] + (tag + ['\t'] + data)))
  {
  }

  /** A word followed by a white-space character is the first field. */
  lemma {:induction false} FieldsAfterWord(w: string, c: char, t: string)
    requires w != [] && NoSpace(w) && IsSpace(c)
    ensures Fields(w + [c] + t) == [w] + Fields(t)
  {
    var s := w + [c] + t;
    assert s == w + ([c] + t);
    WordOfPrefix(w, [c] + t);
    assert s[|w|..] == [c] + t;
    assert ([c] + t)[1..] == t;
  }

  // ---------------------------------------------------------------------
  // Name normalisation

  /** Lower-case, fully qualified text: non-empty, ending in a dot, and free
      of ASCII capitals. */
  predicate IsLowerFqdn(s: string) {
    && s != []
    && s[|s| - 1] == '.'
    && forall i :: 0 <= i < |s| ==> !('A' <= s[i] <= 'Z')
  }

  /** Given a `toLowerFQDN` whose results are lower-case fully qualified
      names, every converted record has such a name, and so do the values of
      SOA, NS and CNAME records; the name and type are never empty. */
  lemma NamesLowerFqdn(drr: WireRecord, lower: string -> string, classes: map<uint16, string>)
    requires forall s :: IsLowerFqdn(lower(s))
    ensures var (r, ok) := ConvertRR(drr, lower, classes);
      && (ok ==> IsLowerFqdn(r.name) && r.name != [] && r.rrType != [])
      && ((drr.SOA? || drr.NS? || drr.CNAME?) ==> IsLowerFqdn(r.value))
  {
  }

  // ---------------------------------------------------------------------
  // The text line and its inverse

  /** Reads a line in the layout `RR.String` writes: five or more tab-separated
      pieces, the TTL piece being six spaces and a decimal number below 2^32,
      the class piece a space and the class; the value is everything after the
      fourth tab. */
  function ParseLine(line: string): Option<RR> {
    var parts := Split(line, '\t');
    if |parts| < 5 then None
    else
      var ttlPart, classPart := parts[1], parts[2];
      if |ttlPart| <= 6 || ttlPart[..6] != "      " then None
      else if !(forall i :: 6 <= i < |ttlPart| ==> IsDigit(ttlPart[i])) then None
      else if classPart == [] || classPart[0] != ' ' then None
      else
        var digits := ttlPart[6..];
        var ttl := DecToNat(digits);
        if ttl >= 0x1_0000_0000 then None
        else Some(RR(parts[0], parts[3], Join(parts[4..], "\t"), classPart[1..], ttl))
  }

  /** The TTL piece of a line: six spaces and the decimal TTL, with no tab. */
  lemma {:induction false} TtlPieceHasNoTab(ttl: nat)
    ensures '\t' !in "      " + NatToDec(ttl)
  {
  }

  /** Split on tabs, a line of `RR.String` falls into the name, the TTL piece,
      the class piece, the type and then the pieces of the value. */
  lemma {:induction false} LinePieces(rr: RR)
    requires '\t' !in rr.name && '\t' !in rr.rrClass && '\t' !in rr.rrType
    ensures Split(rr.String(), '\t')
         == [rr.name, "      " + NatToDec(rr.ttl), " " + rr.rrClass, rr.rrType] + Split(rr.value, '\t')
  {
    var ttlPart, classPart := "      " + NatToDec(rr.ttl), " " + rr.rrClass;
    LineShape(rr);
    TtlPieceHasNoTab(rr.ttl);
    var rest3 := rr.rrType + ['\t'] + rr.value;
    var rest2 := classPart + ['\t'] + rest3;
    var rest1 := ttlPart + ['\t'] + rest2;
    SplitAfter(rr.rrType, '\t', rr.value);
    SplitAfter(classPart, '\t', rest3);
    SplitAfter(ttlPart, '\t', rest2);
    SplitAfter(rr.name, '\t', rest1);
  }

  /** The line is as long as its five parts and the eleven separator
      characters together. */
  lemma {:induction false} LineLength(rr: RR)
    ensures |rr.String()| == |rr.name| + |NatToDec(rr.ttl)| + |rr.rrClass| + |rr.rrType| + |rr.value| + 11
  {
  }

  /** The line of `RR.String` with each separator attached to the piece after
      it. */
  lemma {:induction false} LineShape(rr: RR)
    ensures rr.String()
         == rr.name + ['\t'] + (("      " + NatToDec(rr.ttl)) + ['\t'] + ((" " + rr.rrClass) + ['\t']
              + (rr.rrType + ['\t'] + rr.value)))
  {
  }

  /** `RR.String` loses nothing: as long as the name, class and type hold no
      tab (the value may hold any), the line reads back as the same record. */
  lemma {:induction false} StringReadsBack(rr: RR)
    requires '\t' !in rr.name && '\t' !in rr.rrClass && '\t' !in rr.rrType
    ensures ParseLine(rr.String()) == Some(rr)
  {
    var dec := NatToDec(rr.ttl);
    var ttlPart, classPart := "      " + dec, " " + rr.rrClass;
    LinePieces(rr);
    var parts := Split(rr.String(), '\t');
    assert parts[1] == ttlPart && parts[2] == classPart;
    assert parts[4..] == Split(rr.value, '\t');
    JoinOfSplit(rr.value, '\t');
    assert ttlPart[..6] == "      " && ttlPart[6..] == dec;
    DecOfNat(rr.ttl);
    assert classPart[1..] == rr.rrClass;
  }

  // ---------------------------------------------------------------------
  // Worked examples

  /** An SOA record for EXAMPLE.COM. in class IN with TTL 3600 becomes the
      lower-case record with the same class and TTL. */
  lemma SoaExample(lower: string -> string, classes: map<uint16, string>)
    requires lower("EXAMPLE.COM.") == "example.com." && lower("NS1.EXAMPLE.COM.") == "ns1.example.com."
    requires 1 in classes && classes[1] == "IN"
    ensures ConvertRR(SOA(Header("EXAMPLE.COM.", 1, 3600), "NS1.EXAMPLE.COM."), lower, classes)
         == (RR("example.com.", "SOA", "ns1.example.com.", "IN", 3600), true)
  {
  }

  /** An A record holding the name-collision notice 127.0.53.53 reaches the
      caller with exactly that value. */
  lemma NameCollisionExample(h: Header, lower: string -> string, classes: map<uint16, string>)
    ensures ConvertRR(A(h, NameCollision), lower, classes) == (RR(lower(h.name), "A", "127.0.53.53", ClassName(classes, h.classCode), h.ttl), true)
  {
  }

  /** Three TXT segments come out joined by tabs. */
  lemma TxtExample(h: Header, lower: string -> string, classes: map<uint16, string>)
    ensures ConvertRR(TXT(h, ["a", "b", "c"]), lower, classes).0.value == "a\tb\tc"
  {
  }

  /** A record whose text has only three fields cannot be converted. */
  lemma {:induction false} ThreeFieldsFail(a: string, b: string, c: string, sp: char, lower: string -> string, classes: map<uint16, string>)
    requires IsSpace(sp)
    requires a != [] && NoSpace(a) && b != [] && NoSpace(b) && c != [] && NoSpace(c)
    ensures ConvertRR(Other(Join([a, b, c], [sp])), lower, classes) == (Zero, false)
  {
    FieldsOfJoin([a, b, c], sp);
  }
}
