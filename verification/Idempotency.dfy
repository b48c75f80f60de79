/**
 The idempotency middleware: look the key up, else run the handler and store a successful response.
 The table, the handler and the request's proven company are the environment's.
 */
module Idempotency {
  import opened Wrappers
  import opened Basics

  type Body = Bytes

  const MAX_BODY := 65536

  datatype Method = GET | POST | PUT | PATCH | DELETE | OTHER

  /** A request with the key its header carries and the company its token proves, if any. */
  datatype Request = Request(httpMethod: Method, header: Option<string>, company: Option<string>)

  datatype Key = Key(company: string, key: string)

  /** The dedup key of a request that opts in. */
  function KeyOf(r: Request): Option<Key> {
    if (r.httpMethod.POST? || r.httpMethod.PUT? || r.httpMethod.PATCH? || r.httpMethod.DELETE?) &&
       r.header.Some? && r.company.Some?
    then Some(Key(r.company.value, r.header.value))
    else None
  }

  /** Who opts in: the mutating methods, with a key and a proven company. */
  lemma OptsIn(r: Request)
    ensures KeyOf(r).Some? <==> r.httpMethod in {POST, PUT, PATCH, DELETE} && r.header.Some? && r.company.Some?
  {
  }

  /** Two requests that opt in share a row exactly when both their company and their key agree. */
  lemma SharesRow(a: Request, b: Request)
    requires KeyOf(a).Some? && KeyOf(b).Some?
    ensures KeyOf(a) == KeyOf(b) <==> a.company == b.company && a.header == b.header
  {
  }

  /** A body as a client reads it: its bytes to the end, or some of them and then a failure. */
  datatype BodyStream = Complete(bytes: Body) | Broken(sent: Body)

  type Headers = map<string, string>

  datatype Response = Response(status: nat, headers: Headers, body: BodyStream)

  /** A replay is marked, and always claims to be JSON. */
  const REPLAY_HEADERS: Headers := map["content-type" := "application/json", "idempotent-replay" := "true"]

  predicate Success(status: nat) {
    200 <= status < 300
  }

  /** What is captured of a successful body: nothing when it is over the limit or fails while being read. */
  function Captured(body: BodyStream): Body {
    if body.Complete? && |body.bytes| <= MAX_BODY then body.bytes else []
  }

  datatype Row = Row(status: nat, body: Body)

  type Table = map<Key, Row>

  /** The row stored for a captured body: text, so nothing when it is not UTF-8. */
  function RowFor(status: nat, captured: Body, isUtf8: Body -> bool): Row {
    Row(status, if isUtf8(captured) then captured else [])
  }

  /** The response made from a row; a code that is no HTTP status becomes 200. */
  function Replay(row: Row): Response {
    Response(if 100 <= row.status < 1000 then row.status else 200, REPLAY_HEADERS, Complete(row.body))
  }

  /** Insert, doing nothing on conflict. */
  function Inserted(t: Table, k: Key, r: Row): Table {
    if k in t then t else t[k := r]
  }

  // ----- One request on its own

  /** The table in `public.idempotency_requests`. */
  class Store {
    var rows: Table
    const isUtf8: Body -> bool

    constructor (isUtf8: Body -> bool)
      ensures rows == map[] && this.isUtf8 == isUtf8
    {
      rows := map[];
      this.isUtf8 := isUtf8;
    }

    /** A failed query reads as no row. */
    method Lookup(k: Key, ok: bool) returns (hit: Option<Row>)
      ensures hit == if ok && k in rows then Some(rows[k]) else None
    {
      if ok && k in rows {
        return Some(rows[k]);
      }
      return None;
    }

    method Insert(k: Key, status: nat, captured: Body, ok: bool)
      modifies this
      ensures rows == if ok then Inserted(old(rows), k, RowFor(status, captured, isUtf8)) else old(rows)
    {
      if ok && k !in rows {
        rows := rows[k := Row(status, if isUtf8(captured) then captured else [])];
      }
    }

    /**
     One request, given what the handler answers if it runs and whether the two queries succeed. A
     replay never runs the handler and leaves the table alone; a run stores a success once. Only rows
     of the request's own company and key are answered from or stored.
     */
    method Handle(r: Request, lookupOk: bool, status: nat, headers: Headers, body: BodyStream, storeOk: bool)
      returns (response: Response, ran: bool)
      modifies this
      ensures forall k | k in old(rows) :: k in rows && rows[k] == old(rows)[k]
      ensures forall k | k in rows && k !in old(rows) :: r.company == Some(k.company) && r.header == Some(k.key)
      ensures !ran <==>
                && r.httpMethod in {POST, PUT, PATCH, DELETE} && r.header.Some? && r.company.Some?
                && lookupOk && Key(r.company.value, r.header.value) in old(rows)
      ensures !ran ==>
                var row := old(rows)[Key(r.company.value, r.header.value)];
                && rows == old(rows) && response.body == Complete(row.body)
                && response.status == (if 100 <= row.status <= 999 then row.status else 200)
                && response.headers == map["content-type" := "application/json", "idempotent-replay" := "true"]
      ensures ran ==> response.status == status && response.headers == headers
      ensures var stores := r.httpMethod in {POST, PUT, PATCH, DELETE} && r.header.Some? && r.company.Some? &&
                            200 <= status <= 299;
              && (ran && !stores ==> rows == old(rows) && response.body == body)
              && (ran && stores ==>
                    var key := Key(r.company.value, r.header.value);
                    && response.body == Complete(if body.Complete? && |body.bytes| <= 65536 then body.bytes else [])
                    && (if !storeOk || key in old(rows) then rows == old(rows)
                        else
                          var bytes := response.body.bytes;
                          rows == old(rows)[key := Row(status, if isUtf8(bytes) then bytes else [])]))
    {
      ran := true;
      if KeyOf(r).None? {
        return Response(status, headers, body), true;
      }
      var k := KeyOf(r).value;
      var hit := Lookup(k, lookupOk);
      if hit.Some? {
        return Replay(hit.value), false;
      }
      if !Success(status) {
        return Response(status, headers, body), true;
      }
      var captured := [];
      if body.Complete? && |body.bytes| <= MAX_BODY {
        captured := body.bytes;
      }
      Insert(k, status, captured, storeOk);
      response := Response(status, headers, Complete(captured));
    }
  }
}
