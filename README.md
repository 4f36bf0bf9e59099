# dnsr record normaliser, modelled in Dafny

Package `dnsr` turns the resource records that the `miekg/dns` library parses
into one flat record, `RR`, with the fields name, type, value, class and TTL.
`convertRR` switches on the record's type. SOA, NS and CNAME records take a
lower-cased, fully qualified target as their value. A and AAAA records take
their address text. TXT records take their segments joined by tabs. Any other
record type is rendered to zone-file text and split on white space. At least
four fields are needed; field 0 becomes the name, field 3 the type, and the
remaining fields joined by tabs the value. `(*RR).String` writes a record as
one tab-separated line.

The project has two modules:

- `GoText` (`go_text.dfy`) models the Go library functions the file uses.
  These are `unicode.IsSpace`, `strings.Fields`, `strings.Join` and the
  decimal text of `fmt.Sprint` on an unsigned integer. Each comes with a
  partner: `Split` for `Join`, `DecToNat` for `NatToDec`, and `NonSpace` and
  `Interleave` (words with white-space runs between them) for `Fields`.
  Lemmas connect each function to its partner.
- `Dnsr` (`rr.dfy`) models `rr.go`: the `RR` datatype and its `String`, the
  `NameCollision` constant, the input record `WireRecord`, and `ConvertRR`
  with lemmas for each branch. `ParseLine` is an inverse of `String` that
  the source does not have. It is used only to state that the line loses
  nothing.

Modelling choices:

- `toLowerFQDN` is defined outside `rr.go`, so it is a parameter
  `lower: string -> string`. Facts about lower-casing are stated under an
  explicit hypothesis about `lower` (`NamesLowerFqdn`).
- `dns.ClassToString` is a parameter `classes: map<uint16, string>`. A missing
  key gives `""`, as a Go map lookup does (`ClassName`).
- The TTL is `uint32` and the class code `uint16`, as in the library's header.
- White space is Go's `unicode.IsSpace`: U+0009 to U+000D, U+0020, U+0085,
  U+00A0, U+1680, U+2000 to U+200A, U+2028, U+2029, U+202F, U+205F and U+3000.
- A typed branch gives `""` for a class code missing from `dns.ClassToString`
  and passes a header TTL of 0 through unchanged. So an empty class or a zero
  TTL does not mean the record came through the fallback.
- A converted name is guaranteed non-empty only when `toLowerFQDN` never
  returns `""`. `NamesLowerFqdn` states this under its hypothesis.
- The zone-file text of a record of another type is modelled by `ZoneLine`:
  owner, TTL, class and type, each followed by a tab, then the record data as
  free text. For most types the data fields are separated by spaces. The
  lemmas about it hold only for owner names with no white space, escaped or
  not: `Fields` cuts an owner such as `a\ b.` in two.

## Model

| member | source | states |
|---|---|---|
| `GoText.IsSpaceAscii` | rr.go:58 | below U+0080, the white space `IsSpace` (Go's `unicode.IsSpace`, as `strings.Fields` uses it) is exactly space, tab, newline, carriage return, vertical tab and form feed |
| `GoText.Fields` | rr.go:58 | every field `strings.Fields` returns is non-empty and holds no white space |
| `GoText.FieldsOfInterleave` | rr.go:58 | non-empty, space-free words with white-space runs around them (outer runs may be empty, inner ones not) split into exactly those words |
| `GoText.FieldsCutAtSpace` | rr.go:58 | every text is its fields with white-space runs around and between them, the inner runs non-empty; with `FieldsOfInterleave` this determines the fields of any text |
| `GoText.FieldsKeepNonSpace` | rr.go:58 | laid end to end, the fields are exactly the non-space characters of the text, in order |
| `GoText.FieldsOfJoin` | rr.go:58 | non-empty, space-free words joined by one white-space character split back into exactly those words |
| `GoText.Join` | rr.go:56 | `strings.Join` gives text as long as the pieces plus one separator between each neighbouring pair, and it starts with the first piece |
| `GoText.Split` | rr.go:56 | splitting on a character gives at least one piece, and no piece contains that character |
| `GoText.SplitOfJoin` | rr.go:56 | a non-empty list of tab-free pieces joined by tabs splits back into the same list |
| `GoText.JoinOfSplit` | rr.go:60 | re-joining the pieces of any text with the separator gives the text back |
| `GoText.NatToDec` | rr.go:35 | the TTL text is non-empty, all decimal digits, and has no leading zero unless it is "0" |
| `GoText.DecOfNat` | rr.go:35 | reading the decimal TTL text back gives the TTL |
| `Dnsr.RR.String` | rr.go:34-36 | the line starts with the name and ends with the value |
| `Dnsr.LineLength` | rr.go:35 | the line is exactly as long as name, TTL text, class, type and value plus the 11 separator characters |
| `Dnsr.LinePieces` | rr.go:35 | split on tabs, the line is the name, six spaces and the TTL, a space and the class, the type, then the pieces of the value |
| `Dnsr.StringReadsBack` | rr.go:34-36 | if name, class and type hold no tab, the line parses back to the same record, value and TTL included |
| `Dnsr.ClassName` | rr.go:45-56 | the class text is the name `dns.ClassToString` stores for the code, and "" (Go's zero value) when the code is missing |
| `Dnsr.ConvertRR` | rr.go:42-64 | conversion fails only for a fallback record with fewer than four fields; a failure returns the zero record; a success has a non-empty type tag without white space |
| `Dnsr.TypedBranchesSucceed` | rr.go:44-56 | every SOA, NS, CNAME, A, AAAA and TXT record converts with its own type tag, the normalised owner name, the table's class name and the header TTL |
| `Dnsr.NameValuesNormalised` | rr.go:44-49 | the value of an SOA or NS record is its normalised name server, and of a CNAME its normalised target |
| `Dnsr.AddressKeptVerbatim` | rr.go:50-54 | an A or AAAA value is the address text unchanged |
| `Dnsr.NameCollisionExample` | rr.go:31 | an A record holding 127.0.53.53 converts with exactly that value |
| `Dnsr.TxtSegmentsRecoverable` | rr.go:55-56 | the TXT value is the segments joined by tabs; tab-free segments split back out in order; no segments give "" |
| `Dnsr.FallbackConversion` | rr.go:57-63 | the fallback succeeds if and only if there are at least four fields; then name, type and value come from fields 0, 3 and 4 onward, class is "" and TTL 0; the value splits back into fields 4 onward |
| `Dnsr.FallbackOfZoneLine` | rr.go:57-61 | a record in the zone-file layout comes out with the normalised owner, its type, and the fields of its data joined by tabs; TTL and class text are dropped |
| `Dnsr.FallbackTabsSpacedData` | rr.go:58-60 | data words separated by spaces (MX `10 mail.example.com.`) arrive as the same words separated by tabs |
| `Dnsr.NamesLowerFqdn` | rr.go:44-60 | if `toLowerFQDN` always gives lower-case fully qualified text, so does every converted name and every SOA, NS and CNAME value |
| `Dnsr.SoaExample` | rr.go:44-45 | SOA EXAMPLE.COM. with server NS1.EXAMPLE.COM., class IN and TTL 3600 converts to the lower-case record with class IN and TTL 3600 |
| `Dnsr.TxtExample` | rr.go:55-56 | the segments a, b and c give the value "a\tb\tc" |
| `Dnsr.ThreeFieldsFail` | rr.go:58-63 | a record text of three words separated by white space fails and gives the zero record |

## Left out

- The body of `toLowerFQDN` is not part of this model. It is a parameter, and
  facts about lower-casing rest on a stated hypothesis about it.
- The contents of `dns.ClassToString` are the library's. They are a map
  parameter.
- How `miekg/dns` parses records, and how it renders an unknown record type to
  text. The fallback takes the rendered text as an opaque input string. The
  lemmas about `ZoneLine` assume the library's layout rather than derive it.
- `net.IP.String()` for A and AAAA addresses. The address comes in as its
  rendered text.
- The SOA fields other than `Ns` (mailbox, serial, timers). The converter does
  not read them.
- The `RRs` slice type and the `emptyRRs` variable. They have no behaviour.
  The commented-out debug print is left out too.
- Go strings are byte strings, and `strings.Fields` decodes invalid UTF-8 as
  U+FFFD, which is not white space. The model works on sequences of Unicode
  scalar values, so it does not cover invalid UTF-8.
- A nil record pointer in the type switch would panic in Go. The model has no
  nil records.
- Purity, and hence idempotence, holds by construction: `ConvertRR` is a Dafny
  function. No lemma states it separately.
