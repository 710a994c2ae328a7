# packeteer DNS pipeline, modelled in Dafny

packeteer sniffs live traffic, records every DNS transaction it sees in a SQLite
file, and reports the most-queried domains. This model covers the core of that
pipeline, one module per source file:

- **Packet** (`internal/packet/packet.go`). One pass over a packet's decoded layers,
  in wire order, fills a `PacketInfo` record:
  - the capture metadata is copied;
  - the addresses come from the last IPv4/IPv6 layer and the ports from the last TCP/UDP layer;
  - the protocol tag is that of the last layer the switch recognises;
  - a DNS layer is decoded with the source address known at that point.

  The record counts as nil when all eight of its fields are zero. The module also
  models the interface filter behind the device prompt.
- **Dns** (`internal/dns/dns.go`) turns a decoded DNS message into a `DnsInfo`:
  - the last question wins;
  - the answers are read only when `ANCount > 0`;
  - the alias path is the CNAMEs, each followed by a comma;
  - the addresses are kept in answer order;
  - the QR bit sets the role.

  The record is handed to the store with its addresses joined by commas.
- **Storage** (`internal/storage/db.go`) is the `dns_queries` table. It is modelled as
  the class `DnsStore` with these fields:
  - a schema flag;
  - an append-only sequence of rows;
  - the next AUTOINCREMENT id.

  The operations are `OpenDb` / `migrate`, the insert, `SELECT *`, and the
  `GROUP BY query_name` report.
- **Text** holds `strings.Join`, its inverse split at a one-character separator, and
  the decimal text SQLite's `GROUP_CONCAT` gives an INTEGER.
- **Wrappers** holds `Option` and `Result`, which stand for Go's nil results and
  `error` results.

### How the model is built

- **Loops become methods.** The source's loops are Dafny methods with loop
  invariants: the layer loop, the question loop, the answer loop, the interface
  filter and the row scan.
- **Each method is proved against a function.** The function states the result
  without the loop. For example:
  - `Summary` and `DnsOfLayers` describe the layer loop by "the last layer of each kind";
  - `DecodedDnsInfo` describes the decoder;
  - `NamesWithAddresses` describes the interface filter.
- **The report is stated as a relation.** The SQL report leaves the order of ties
  and the order inside `GROUP_CONCAT` open. `IsMostQueried` therefore states every
  result the statement may give. `MostQueriedDomains` computes one such result and
  is proved to satisfy it.

### Notes on the code

- **The second result of `ExtractPacketInfo` is never nil.** It is either the
  empty `DNSInfo` or a decoded one. The `dnsInfo == nil` branch
  (internal/packet/packet.go:109-111) is therefore dead code, and the nil test in
  cmd/sniff.go always passes. The model returns a plain `DnsInfo`.
- **`Events` concatenates the `event` column**, which holds each row's DNS transaction id.

## Model

| member | source | states |
|---|---|---|
| Packet.ProtocolName | internal/packet/packet.go:28-41 | every protocol tag has non-empty text |
| Packet.ProtocolNameInjective | internal/packet/packet.go:30-41 | distinct tags have distinct texts, so the enumeration is faithful to the string constants |
| Packet.LastWhere | internal/packet/packet.go:56-106 | the position found satisfies the predicate and no later layer does; None exactly when no layer satisfies it |
| Packet.LastWhereSnoc | internal/packet/packet.go:56-57 | one more layer at the end becomes the last match exactly when it satisfies the predicate |
| Packet.SummarySnoc | internal/packet/packet.go:57-105 | appending one layer changes the last-layer summary exactly as one pass of the switch changes the record |
| Packet.DnsOfLayersSnoc | internal/packet/packet.go:74-76 | an appended DNS layer replaces the DNS record with its own decoding, using the source address of the layers before it; any other layer leaves the DNS record alone |
| Packet.HandleLayer | internal/packet/packet.go:57-105 | one pass of the switch overwrites exactly the fields its layer carries and the tag; a DNS layer is decoded with the source address recorded before it, and any other layer keeps the DNS record |
| Packet.ExtractPacketInfo | internal/packet/packet.go:46-116 | the first result is None exactly when the summary record is all zero, and otherwise that record with the metadata copied; the second result is the DNS record of the last DNS layer, or the empty record |
| Packet.ProtocolIsLastRecognised | internal/packet/packet.go:57-105 | the tag is absent exactly when no layer is recognised, and otherwise it is the tag of a recognised layer with no recognised layer after it |
| Packet.FieldsFromLastCarrier | internal/packet/packet.go:62-88 | the addresses come from the last IPv4/IPv6 layer and the ports from the last TCP/UDP layer |
| Packet.FieldsEmptyWithoutCarrier | internal/packet/packet.go:62-88 | with no IP layer both addresses stay "", and with no TCP/UDP layer both ports stay "" |
| Packet.NilIffNothingRecognised | internal/packet/packet.go:108-115 | the record is nil exactly when the metadata is all zero and no layer is recognised |
| Packet.IsPacketInfoNil | internal/packet/packet.go:160-169 | defined as: all eight fields at their zero value; `PacketInfoNilIffZero` proves that is the all-zero record and nothing else |
| Packet.PacketInfoNilIffZero | internal/packet/packet.go:160-169 | `isPacketInfoNil` holds of the all-zero record and of no other |
| Packet.LastWhereSkip | internal/packet/packet.go:56-105 | inserting a non-matching layer shifts the last match's position and changes nothing else |
| Packet.SummarySkip | internal/packet/packet.go:57-105 | a layer type the switch has no case for leaves the record unchanged, wherever it occurs |
| Packet.DnsOfLayersSkip | internal/packet/packet.go:74-76 | such a layer leaves the DNS record unchanged too, including the source address the DNS layer sees |
| Packet.TcpOverIPv4 | internal/packet/packet_test.go:150-182 | Ethernet, then IPv4, then TCP gives the tag TCP with both address and port pairs filled in |
| Packet.DnsSeesPrecedingSource | internal/packet/packet.go:74-76 | a DNS layer after IPv4 and UDP is decoded with the IPv4 source address |
| Packet.DnsBeforeAddressSeesNone | internal/packet/packet.go:74-76 | a DNS layer before any IP layer is decoded with an empty source address, even when an IP layer follows |
| Packet.NoDnsLayerGivesEmptyInfo | internal/packet/packet.go:48 | without a DNS layer the second result is the empty record |
| Packet.FilterNetworkInterfaces | internal/packet/packet.go:148-157 | the loop returns the names of the interfaces that have an address, in input order |
| Packet.NamesWithAddressesAppend | internal/packet/packet.go:150-154 | filtering a concatenation gives the concatenation of the filtered parts, so input order is kept |
| Packet.NamesWithAddressesMembers | internal/packet/packet.go:151-152 | a name is returned exactly when some interface of that name has at least one address |
| Packet.NamesWithAddressesLength | internal/packet/packet.go:148-157 | the result never has more names than there are interfaces |
| Dns.RequestTypeText | internal/dns/dns.go:25-30 | the role text is "query", "response", or "" for the zero record, each exactly for its role |
| Dns.CnamePathIsTerminatedJoin | internal/dns/dns.go:72-82 | the alias path is "" when no answer has a CNAME; otherwise it is the CNAMEs joined by commas plus one trailing comma |
| Dns.CnamePathEndsWithComma | internal/dns/dns.go:74-75 | a non-empty alias path ends with a comma |
| Dns.CnamePathAppend | internal/dns/dns.go:73-76 | the path of a concatenation of answers is the concatenation of their paths, so the path follows answer order |
| Dns.AnswerIpsAppend | internal/dns/dns.go:73-80 | the addresses of a concatenation of answers are the concatenation of their addresses |
| Dns.OneAnswer | internal/dns/dns.go:74-80 | one answer adds its CNAME with a comma, if it has one, and its address, if it has one, independently |
| Dns.AnswerIpsMembers | internal/dns/dns.go:78-79 | an address is in the list exactly when some answer carries it; nil addresses are dropped |
| Dns.HandleDnsQuestions | internal/dns/dns.go:59-65 | with questions, the name and type are those of the last question and nothing else changes; with none, the record is unchanged |
| Dns.HandleDnsAnswer | internal/dns/dns.go:70-83 | the path is replaced by the answers' alias path, the answers' addresses are appended to those already present, and nothing else changes |
| Dns.DecodeDnsPacket | internal/dns/dns.go:34-55 | the timestamp, source address and transaction id are copied; the query is the last question's, or "" with none; the path and addresses are the answers' when ANCount > 0 and empty otherwise; the role is response exactly when QR is set |
| Dns.ResponseIpsColumnRoundTrip | internal/dns/dns.go:87 | splitting the stored column at commas gives back the address list when it is non-empty and no address holds a comma |
| Dns.ResponseIpsColumnNoStrayComma | internal/dns/dns.go:87 | no addresses give "" and one address gives exactly that address |
| Dns.ResponseIpsColumn | internal/dns/dns.go:87 | defined as the `strings.Join` of the addresses with ","; `ResponseIpsColumnRoundTrip` and `ResponseIpsColumnNoStrayComma` show the text keeps the list recoverable |
| Dns.InsertDnsInfo | internal/dns/dns.go:86-100 | exactly one row is appended, holding every field verbatim, the joined addresses and the role text, and the id counter goes up by one; with no table, a `NoSuchTable` error, and neither the rows nor the counter change |
| Storage.DnsStore.constructor | internal/storage/db.go:32-33 | a new database file has no table and no rows, and its AUTOINCREMENT counter starts at 1 |
| Storage.DnsStore.Migrate | internal/storage/db.go:53-70 | afterwards the table exists, and the existing rows and the id counter are kept (IF NOT EXISTS) |
| Storage.DnsStore.OpenDb | internal/storage/db.go:32-50 | opening migrates the file; reopening an existing store keeps its rows |
| Storage.DnsStore.InsertDnsEntry | internal/storage/db.go:74-89 | exactly one row is appended, carrying the next AUTOINCREMENT id and the eight values verbatim; with no table it fails and changes nothing |
| Storage.DnsStore.GetDnsEntries | internal/storage/db.go:135-166 | returns every stored row in insertion order, with ids strictly increasing; fails when the table is missing |
| Storage.DnsStore.GetMostQueriedDomains | internal/storage/db.go:98-124 | the result is one of the reports the SQL statement allows; fails when the table is missing |
| Storage.QueryRows | internal/storage/db.go:105 | keeps exactly the rows whose request type is "query" |
| Storage.RowsNamed | internal/storage/db.go:106 | keeps exactly the rows of one query name |
| Storage.DistinctNames | internal/storage/db.go:106 | each query name that occurs appears exactly once |
| Storage.EventTexts | internal/storage/db.go:102 | one text per row of the group, each canonical base-10 text (digits only, no leading zero) whose value is that row's transaction id |
| Storage.InsertByCount | internal/storage/db.go:107 | ordered insertion adds the new row to the multiset and loses none |
| Storage.InsertByCountMembers | internal/storage/db.go:107 | after insertion, the members are the new row and the old members |
| Storage.InsertByCountDescending | internal/storage/db.go:107 | insertion into a list with descending counts keeps the counts descending |
| Storage.InsertByCountUnique | internal/storage/db.go:106 | inserting a row with a new name keeps the names unique |
| Storage.SortByCountDesc | internal/storage/db.go:107 | the sorted report is a permutation of its input |
| Storage.SortByCountDescMembers | internal/storage/db.go:107 | sorting keeps exactly the same members |
| Storage.SortByCountDescDescending | internal/storage/db.go:107 | the sorted report has non-increasing counts |
| Storage.SortByCountDescUnique | internal/storage/db.go:106-107 | sorting keeps the names unique |
| Storage.GroupDescribes | internal/storage/db.go:100-106 | the group row of an occurring name carries its COUNT(*), and its events split back into the multiset of the group's event ids |
| Storage.MostQueriedDomainsMeetsSpec | internal/storage/db.go:98-124 | the computed report is one of the allowed ones |
| Storage.MostQueriedDomains | internal/storage/db.go:99-108 | as many report rows as there are distinct query names among the query rows; `MostQueriedDomainsMeetsSpec` proves it is a result the SQL statement allows |
| Storage.EmptyTableNoGroups | internal/storage/db_test.go:234-242 | an empty table allows only the empty report |
| Storage.NoQueryRowsNoGroups | internal/storage/db_test.go:295-329 | a table with no query row, for example one holding only responses, allows only the empty report, and the computed report is empty |
| Storage.QueryRowsIdempotent | internal/storage/db.go:105 | filtering on the role twice is filtering once |
| Storage.QueryRowsAppend | internal/storage/db.go:105 | filtering on the role keeps row order |
| Storage.OnlyQueryRowsCount | internal/storage/db.go:105 | the allowed reports depend on the query rows alone |
| Storage.ResponseRowChangesNothing | internal/storage/db_test.go:295-329 | appending a row that is not a query row changes neither the allowed reports nor the computed one |
| Storage.TotalCountIsCountIn | internal/storage/db.go:103 | when every count is correct, the sum of the counts is the number of rows named in the report |
| Storage.CountInEmpty | internal/storage/db.go:103 | no rows give no counts |
| Storage.CountInSnoc | internal/storage/db.go:103-106 | one more row adds one to the count exactly when its name is in the report |
| Storage.CountInCovers | internal/storage/db.go:103-106 | when every row's name is listed once, the counts add up to the number of rows |
| Storage.ReportCountsSum | internal/storage/db.go:103-106 | a report with unique names, correct counts and every row covered has counts summing to the rows |
| Storage.CountsSumToQueryRows | internal/storage/db.go:98-124 | in every allowed report the counts add up to the number of query rows |
| Storage.ReopenKeepsRows | internal/storage/db_test.go:39-67 | open, insert, open again, read: exactly the inserted row comes back, with id 1 and every value as inserted |
| Text.Decimal | internal/storage/db.go:102 | the decimal text of an event id is canonical: non-empty, all digits, and without a leading zero unless it is "0" |
| Text.JoinEmptyAndSingle | internal/dns/dns.go:87 | joining nothing gives "", and joining one element gives that element |
| Text.Join | internal/dns/dns.go:87 | `strings.Join`: elements with the separator between neighbours; `JoinSnoc`, `JoinEmptyAndSingle` and `SplitJoin` state what it gives |
| Text.JoinSnoc | internal/dns/dns.go:87 | joining one more element adds one separator and that element |
| Text.SplitFree | internal/dns/dns.go:87 | text without the separator splits into itself alone |
| Text.SplitAfterFree | internal/dns/dns.go:87 | a separator-free piece followed by the separator splits off as the first piece |
| Text.SplitJoin | internal/dns/dns.go:87 | splitting undoes joining for a non-empty list of separator-free elements |
| Text.DecimalFree | internal/storage/db.go:102 | decimal text contains no comma, so `GROUP_CONCAT`'s separator is unambiguous |
| Text.DecimalValue | internal/storage/db.go:102 | the decimal text of an event id denotes that id in base 10 |
| Text.DecimalInjective | internal/storage/db.go:102 | distinct event ids have distinct texts |
| Text.CanonicalIsDecimal | internal/storage/db.go:102 | every canonical digit string (no leading zero) is the decimal text of the number it denotes |
| Text.CanonicalUnique | internal/storage/db.go:102 | two canonical texts of the same number are the same text, so the rendering of an event id is unique |

## Left out

- `SelectInterface` is left out: it runs an interactive terminal prompt. Only the `filterNetworkInterfaces` step it calls is modelled.
- Layer decoding by gopacket is left out. Layers come in already decoded, with only the fields the switch reads.
- The `String()` rendering of IPs and ports is left out. Addresses and ports are opaque text.
- RFC 3339 timestamp formatting is left out. It is the `formatTime` parameter of `Packet.ExtractPacketInfo`.
- Record types are left out. The `Type.String()` text of a question is kept as given.
- The SQLite driver is left out, along with:
  - the WAL and foreign-key options;
  - `Ping`;
  - logging;
  - disk and driver errors other than a missing table.

  The store is an in-memory sequence of rows.
- `Storage.DnsStore.GetDnsEntries` keeps the stored timestamp text. It does not model how `DATETIME` text is parsed back into `time.Time`, or that parse failing.
- `Storage.DnsStore.GetDnsEntries` returns rows in insertion order. SQLite does not promise an order for `SELECT *` without `ORDER BY`; the model takes the usual rowid order.
- The stubs `GetQueriesOverTime` and `GetUniqueDomains` are left out. They do nothing and always return nil.
- The two `CREATE INDEX IF NOT EXISTS` statements (internal/storage/db.go:66-67) are left out. An index changes how fast a query runs, never its result.
- The `NOT NULL` constraints are left out. Go strings are never NULL, so they cannot fail.
- The command-line layer is left out: `cmd/`, the capture loop and the output printers.
- `Dns.HandleDnsQuestions` and `Dns.HandleDnsAnswer` take the record and return the updated one, instead of updating it in place. In the source the record is always freshly allocated by `DecodeDNSPacket`, so nothing else aliases it.
- `Dns.HandleDnsAnswer` models a nil answer address (`"<nil>"` from `IP.String()`) as an absent value, not as a string comparison.
- `Storage.DnsStore.GetMostQueriedDomains` returns one report that `IsMostQueried` allows. SQLite may legitimately return another ordering of ties or of the concatenated events.
