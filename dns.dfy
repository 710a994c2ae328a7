/**
 * The DNS transaction decoder of internal/dns/dns.go: a decoded DNS message plus
 * its context (source address, timestamp text) becomes one `DnsInfo`, which is
 * then written to the store with its response addresses joined by commas.
 */
module Dns {
  import opened Wrappers
  import opened Text
  import Storage

  type uint16 = Storage.uint16

  /** A question as the decoder sees it: the name and the text of its record type ("A", "AAAA", ...). */
  datatype DnsQuestion = DnsQuestion(name: string, qtype: string)

  /** An answer record: its CNAME ("" when it has none) and its address text (None for a nil IP). */
  datatype DnsAnswer = DnsAnswer(cname: string, ip: Option<string>)

  /** The fields of a decoded DNS layer that the decoder reads. */
  datatype DnsMessage = DnsMessage(
    id: uint16,
    qr: bool,
    anCount: uint16,
    questions: seq<DnsQuestion>,
    answers: seq<DnsAnswer>)

  datatype RequestType = Query | Response

  /** The text of a role; the zero value of Go's `RequestType` is "". */
  function RequestTypeText(t: Option<RequestType>): (r: string)
    ensures t == Some(Query) <==> r == "query"
    ensures t == Some(Response) <==> r == "response"
    ensures t == None <==> r == ""
  {
    match t
    case None => ""
    case Some(Query) => "query"
    case Some(Response) => "response"
  }

  /** One DNS transaction; `requestType` is None only in the empty record. */
  datatype DnsInfo = DnsInfo(
    time: string,
    srcIp: string,
    queryName: string,
    queryType: string,
    cnamePath: string,
    responseIps: seq<string>,
    requestType: Option<RequestType>,
    txnId: uint16)

  /** `&DNSInfo{}`: every field at Go's zero value. */
  const EmptyDnsInfo := DnsInfo("", "", "", "", "", [], None, 0)

  /** The role a message has: Response exactly when its QR bit is set. */
  function RoleOf(qr: bool): RequestType
  {
    if qr then Response else Query
  }

  // ---------------------------------------------------------------------------
  // What the answer loop builds
  // ---------------------------------------------------------------------------

  /** The non-empty CNAMEs of the answers, in answer order. */
  function Aliases(answers: seq<DnsAnswer>): seq<string>
  {
    if |answers| == 0 then []
    else
      var a := answers[|answers| - 1];
      Aliases(answers[..|answers| - 1]) + (if |a.cname| > 0 then [a.cname] else [])
  }

  /** The text the `strings.Builder` collects: `cname + ","` for every answer that has a CNAME. */
  function CnamePath(answers: seq<DnsAnswer>): string
  {
    if |answers| == 0 then ""
    else
      var a := answers[|answers| - 1];
      CnamePath(answers[..|answers| - 1]) + (if |a.cname| > 0 then a.cname + "," else "")
  }

  /** The addresses of the answers that have one, in answer order. */
  function AnswerIps(answers: seq<DnsAnswer>): seq<string>
  {
    if |answers| == 0 then []
    else
      var a := answers[|answers| - 1];
      AnswerIps(answers[..|answers| - 1]) + (if a.ip.Some? then [a.ip.value] else [])
  }

  /** The alias path is the aliases joined by commas, with one more comma after the last alias. */
  lemma {:induction false} CnamePathIsTerminatedJoin(answers: seq<DnsAnswer>)
    ensures CnamePath(answers) == if Aliases(answers) == [] then "" else Join(Aliases(answers), ",") + ","
  {
    if |answers| > 0 {
      var front := answers[..|answers| - 1];
      var a := answers[|answers| - 1];
      CnamePathIsTerminatedJoin(front);
      if |a.cname| > 0 {
        assert Aliases(answers) == Aliases(front) + [a.cname];
        assert CnamePath(answers) == CnamePath(front) + (a.cname + ",");
        if Aliases(front) == [] {
          assert Aliases(answers) == [a.cname];
        } else {
          var j := Join(Aliases(front), ",");
          JoinSnoc(Aliases(front), a.cname, ",");
          assert Join(Aliases(answers), ",") == j + "," + a.cname;
          assert CnamePath(front) == j + ",";
          assert (j + ",") + (a.cname + ",") == (j + "," + a.cname) + ",";
        }
      } else {
        assert Aliases(answers) == Aliases(front);
        assert CnamePath(answers) == CnamePath(front);
      }
    }
  }

  /** A non-empty alias path always ends with the separator. */
  lemma CnamePathEndsWithComma(answers: seq<DnsAnswer>)
    requires CnamePath(answers) != ""
    ensures CnamePath(answers)[|CnamePath(answers)| - 1] == ','
  {
    CnamePathIsTerminatedJoin(answers);
  }

  /** The path is in answer order: the path of a concatenation is the concatenation of the paths. */
  lemma {:induction false} CnamePathAppend(a: seq<DnsAnswer>, b: seq<DnsAnswer>)
    ensures CnamePath(a + b) == CnamePath(a) + CnamePath(b)
  {
    if |b| == 0 {
      assert a + b == a;
    } else {
      assert (a + b)[..|a + b| - 1] == a + b[..|b| - 1];
      CnamePathAppend(a, b[..|b| - 1]);
    }
  }

  /** The addresses accumulate in answer order. */
  lemma {:induction false} AnswerIpsAppend(a: seq<DnsAnswer>, b: seq<DnsAnswer>)
    ensures AnswerIps(a + b) == AnswerIps(a) + AnswerIps(b)
  {
    if |b| == 0 {
      assert a + b == a;
    } else {
      assert (a + b)[..|a + b| - 1] == a + b[..|b| - 1];
      AnswerIpsAppend(a, b[..|b| - 1]);
    }
  }

  /** What one answer contributes; it may contribute to both the path and the address list, or to neither. */
  lemma OneAnswer(a: DnsAnswer)
    ensures CnamePath([a]) == if |a.cname| > 0 then a.cname + "," else ""
    ensures AnswerIps([a]) == if a.ip.Some? then [a.ip.value] else []
  {
    assert [a][..0] == [];
  }

  /** Every address in the list comes from some answer, and every answer's address is in the list. */
  lemma {:induction false} AnswerIpsMembers(answers: seq<DnsAnswer>, x: string)
    ensures x in AnswerIps(answers) <==> exists k :: 0 <= k < |answers| && answers[k].ip == Some(x)
  {
    if |answers| > 0 {
      var front := answers[..|answers| - 1];
      AnswerIpsMembers(front, x);
      assert forall k :: 0 <= k < |front| ==> front[k] == answers[k];
      if answers[|answers| - 1].ip == Some(x) {
        assert x in AnswerIps(answers);
      }
    }
  }

  // ---------------------------------------------------------------------------
  // The decoder
  // ---------------------------------------------------------------------------

  /** The record `DecodeDNSPacket` returns, as a value; the methods below are proved to build it. */
  function DecodedDnsInfo(dl: DnsMessage, srcIp: string, timestamp: string): DnsInfo
  {
    var qs := dl.questions;
    DnsInfo(
      timestamp,
      srcIp,
      if |qs| > 0 then qs[|qs| - 1].name else "",
      if |qs| > 0 then qs[|qs| - 1].qtype else "",
      if dl.anCount > 0 then CnamePath(dl.answers) else "",
      if dl.anCount > 0 then AnswerIps(dl.answers) else [],
      Some(RoleOf(dl.qr)),
      dl.id)
  }

  /** Overwrites the query name and type once per question, so the last question wins. */
  method HandleDnsQuestions(dl: DnsMessage, info: DnsInfo) returns (r: DnsInfo)
    ensures |dl.questions| == 0 ==> r == info
    ensures |dl.questions| > 0 ==>
      var last := dl.questions[|dl.questions| - 1];
      r == info.(queryName := last.name, queryType := last.qtype)
  {
    r := info;
    for i := 0 to |dl.questions|
      invariant i == 0 ==> r == info
      invariant i > 0 ==> r == info.(queryName := dl.questions[i - 1].name, queryType := dl.questions[i - 1].qtype)
    {
      var q := dl.questions[i];
      r := r.(queryName := q.name, queryType := q.qtype);
    }
  }

  /** Builds the alias path and appends the answers' addresses to those already in `info`. */
  method HandleDnsAnswer(dl: DnsMessage, info: DnsInfo) returns (r: DnsInfo)
    ensures r == info.(cnamePath := CnamePath(dl.answers), responseIps := info.responseIps + AnswerIps(dl.answers))
  {
    var answers := dl.answers;
    var cnamePath := "";
    r := info;
    for i := 0 to |answers|
      invariant cnamePath == CnamePath(answers[..i])
      invariant r == info.(responseIps := info.responseIps + AnswerIps(answers[..i]))
    {
      var a := answers[i];
      assert answers[..i + 1][..i] == answers[..i];
      if |a.cname| > 0 {
        cnamePath := cnamePath + a.cname + ",";
      }
      if a.ip.Some? {
        r := r.(responseIps := r.responseIps + [a.ip.value]);
      }
    }
    assert answers[..|answers|] == answers;
    r := r.(cnamePath := cnamePath);
  }

  /** Decodes one DNS layer: context copied verbatim, last question, answers only when ANCount > 0, role from QR. */
  method DecodeDnsPacket(dl: DnsMessage, srcIp: string, timestamp: string) returns (r: DnsInfo)
    ensures r.time == timestamp && r.srcIp == srcIp && r.txnId == dl.id
    ensures r.requestType == Some(Response) <==> dl.qr
    ensures r.requestType == Some(Query) <==> !dl.qr
    ensures |dl.questions| > 0 ==>
      r.queryName == dl.questions[|dl.questions| - 1].name && r.queryType == dl.questions[|dl.questions| - 1].qtype
    ensures |dl.questions| == 0 ==> r.queryName == "" && r.queryType == ""
    ensures dl.anCount == 0 ==> r.cnamePath == "" && r.responseIps == []
    ensures dl.anCount > 0 ==> r.cnamePath == CnamePath(dl.answers) && r.responseIps == AnswerIps(dl.answers)
    ensures r == DecodedDnsInfo(dl, srcIp, timestamp)
  {
    r := DnsInfo(timestamp, srcIp, "", "", "", [], None, dl.id);
    r := HandleDnsQuestions(dl, r);
    if dl.anCount > 0 {
      r := HandleDnsAnswer(dl, r);
    }
    if dl.qr {
      r := r.(requestType := Some(Response));
    } else {
      r := r.(requestType := Some(Query));
    }
  }

  // ---------------------------------------------------------------------------
  // The storage boundary
  // ---------------------------------------------------------------------------

  /** The `response_ips` column: the address list joined by commas, "" for no address. */
  function ResponseIpsColumn(info: DnsInfo): string
  {
    Join(info.responseIps, ",")
  }

  /** The column text gives back the address list whenever there is one and no address holds a comma. */
  lemma ResponseIpsColumnRoundTrip(info: DnsInfo)
    requires |info.responseIps| > 0
    requires forall i :: 0 <= i < |info.responseIps| ==> Free(info.responseIps[i], ',')
    ensures Split(ResponseIpsColumn(info), ',') == info.responseIps
  {
    SplitJoin(info.responseIps, ',');
  }

  /** With no address the column is empty, with one it is that address: no stray comma either way. */
  lemma ResponseIpsColumnNoStrayComma(info: DnsInfo)
    ensures |info.responseIps| == 0 ==> ResponseIpsColumn(info) == ""
    ensures |info.responseIps| == 1 ==> ResponseIpsColumn(info) == info.responseIps[0]
  {
  }

  /** `InsertDNSInfo`: joins the addresses and hands every other field to the store unchanged. */
  method InsertDnsInfo(info: DnsInfo, sqldb: Storage.DnsStore) returns (err: Option<Storage.StoreError>)
    requires sqldb.Valid()
    modifies sqldb
    ensures sqldb.Valid() && sqldb.tableExists == old(sqldb.tableExists)
    ensures err.None? <==> old(sqldb.tableExists)
    ensures err.None? ==>
      sqldb.rows == old(sqldb.rows) + [Storage.DnsEntry(old(sqldb.nextId), info.time, info.srcIp,
                                                        info.queryName, info.queryType, info.cnamePath,
                                                        ResponseIpsColumn(info), RequestTypeText(info.requestType),
                                                        info.txnId)]
    ensures err.None? ==> sqldb.nextId == old(sqldb.nextId) + 1
    ensures err.Some? ==>
      err == Some(Storage.NoSuchTable) && sqldb.rows == old(sqldb.rows) && sqldb.nextId == old(sqldb.nextId)
  {
    var responseIps := Join(info.responseIps, ",");
    err := sqldb.InsertDnsEntry(
      info.time,
      info.srcIp,
      info.queryName,
      info.queryType,
      info.cnamePath,
      responseIps,
      RequestTypeText(info.requestType),
      info.txnId);
  }
}
