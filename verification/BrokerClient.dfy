/**
 What the broker client makes of an answer, and whether an order may exist: `_send`,
 `_request_envelope`, `place_order`, `_rows`, `get_order_book` and `get_positions` in
 skopaq/broker/client.py.
*/
module BrokerClient {
  import opened Wrappers
  import opened OrderStatus

  datatype Json =
    | JNull
    | JBool(b: bool)
    | JInt(n: int)
    | JFloat(x: real)
    | JStr(s: string)
    | JArr(items: seq<Json>)
    | JObj(fields: map<string, Json>)

  /** `BrokerError.kind`, with the status code of an HTTP error. */
  datatype Kind = NotSent | Transport | Http(code: int) | BadPayload | ErrorBody

  type ErrorCode = code: int | code >= 400 witness 400

  /** How one request can end on the wire. */
  datatype Wire =
    | ClientClosed
    | TokenExpired
    | ConnectFailed
    | ConnectionLost
    | Status(code: ErrorCode)
    | NotJson
    | Body(payload: Json)

  /** `_send` and `_json`: the parsed body of an answer below 400, or the kind of failure. */
  function Send(w: Wire): Result<Json, Kind> {
    match w
    case ClientClosed => Failure(NotSent)
    case TokenExpired => Failure(NotSent)
    case ConnectFailed => Failure(NotSent)
    case ConnectionLost => Failure(Transport)
    case Status(code) => Failure(Http(code))
    case NotJson => Failure(BadPayload)
    case Body(payload) => Success(payload)
  }

  // ---------------------------------------------------------------- the envelope

  function DropTrailing(s: string): string {
    if s != "" && IsSpace(s[|s| - 1]) then DropTrailing(s[..|s| - 1]) else s
  }

  function Strip(s: string): string { DropTrailing(DropSpaces(s)) }

  function Lower(c: char): char { if 'A' <= c <= 'Z' then (c as int + 32) as char else c }

  function LowerAll(s: string): string { seq(|s|, i requires 0 <= i < |s| => Lower(s[i])) }

  /** A status string, whatever its case and surrounding blanks. */
  predicate Says(v: Json, word: string) { v.JStr? && LowerAll(Strip(v.s)) == word }

  /** An error field that carries something. */
  predicate Carries(v: Json) {
    match v
    case JNull => false
    case JBool(b) => b
    case JInt(n) => n != 0
    case JFloat(x) => x != 0.0
    case JStr(s) => Strip(s) != ""
    case JArr(items) => items != []
    case JObj(fields) => fields != map[]
  }

  predicate IsErrorBody(m: map<string, Json>) {
    || ("status" in m && (Says(m["status"], "error") || Says(m["status"], "failure")))
    || ("success" in m && m["success"] == JBool(false))
    || ("error" in m && Carries(m["error"]))
    || ("error_type" in m && Carries(m["error_type"]))
    || ("error_code" in m && Carries(m["error_code"]))
  }

  predicate MarkedSuccess(m: map<string, Json>) {
    ("status" in m && Says(m["status"], "success")) || ("success" in m && m["success"] == JBool(true))
  }

  predicate Unmarked(m: map<string, Json>) { "status" !in m && "success" !in m }

  /** `_request_envelope`; none of the calls below insists on `data`. */
  function Envelope(w: Wire): Result<Json, Kind> {
    match Send(w)
    case Failure(kind) => Failure(kind)
    case Success(payload) =>
      if payload.JArr? then Success(payload)
      else if !payload.JObj? then Failure(BadPayload)
      else
        var m := payload.fields;
        if IsErrorBody(m) then Failure(ErrorBody)
        else if "data" !in m then Success(payload)
        else if m["data"] == JNull && !MarkedSuccess(m) then Failure(ErrorBody)
        else if !(MarkedSuccess(m) || Unmarked(m)) then Failure(ErrorBody)
        else Success(m["data"])
  }

  // ---------------------------------------------------------------- what counts as a failure

  /** `c` is the letter `d`, in either case. */
  predicate SameLetter(c: char, d: char) {
    c == d || ('a' <= d <= 'z' && c as int == d as int - 32)
  }

  /** `s` is the lower-case `word` in any case, with blanks around it. */
  ghost predicate Spells(s: string, word: string) {
    exists lead, x, tail ::
      s == lead + (x + tail) && Blank(lead) && Blank(tail) && |x| == |word|
      && forall i :: 0 <= i < |x| ==> SameLetter(x[i], word[i])
  }

  ghost predicate LowerWord(word: string) { word != "" && forall i :: 0 <= i < |word| ==> 'a' <= word[i] <= 'z' }

  lemma {:induction false} TrailingComesOff(t: string, tail: string)
    requires Blank(tail) && (t == "" || !IsSpace(t[|t| - 1]))
    ensures DropTrailing(t + tail) == t
  {
    hide IsSpace;
    if tail == "" {
      assert t + tail == t;
    } else {
      var n := |tail| - 1;
      assert (t + tail)[..|t + tail| - 1] == t + tail[..n] && (t + tail)[|t + tail| - 1] == tail[n];
      TrailingComesOff(t, tail[..n]);
    }
  }

  lemma {:induction false} DropTrailingSplits(s: string) returns (tail: string)
    ensures Blank(tail) && s == DropTrailing(s) + tail
    ensures DropTrailing(s) == "" || !IsSpace(DropTrailing(s)[|DropTrailing(s)| - 1])
  {
    hide IsSpace;
    tail := "";
    if s != "" && IsSpace(s[|s| - 1]) {
      var n := |s| - 1;
      tail := DropTrailingSplits(s[..n]);
      assert s == s[..n] + [s[n]];
      tail := tail + [s[n]];
    }
  }

  /** A text with nothing blank first or last. */
  ghost predicate Trimmed(x: string) { x == "" || (!IsSpace(x[0]) && !IsSpace(x[|x| - 1])) }

  /** Stripping takes away exactly the blanks around a trimmed text. */
  lemma StripIs(lead: string, x: string, tail: string)
    requires Blank(lead) && Blank(tail) && Trimmed(x) && x != ""
    ensures Strip(lead + (x + tail)) == x
  {
    hide IsSpace;
    assert (x + tail)[0] == x[0];
    BlanksComeOff(lead, x + tail);
    TrailingComesOff(x, tail);
  }

  lemma StripSplits(s: string) returns (lead: string, tail: string)
    ensures Blank(lead) && Blank(tail) && s == lead + (Strip(s) + tail) && Trimmed(Strip(s))
  {
    hide IsSpace, DropTrailing, DropSpaces, Blank;
    DropSpacesSplits(s);
    lead := s[..Lead(s)];
    tail := DropTrailingSplits(DropSpaces(s));
    if Strip(s) != "" {
      assert DropSpaces(s)[0] == Strip(s)[0];
    }
  }

  lemma LettersAreNotBlank(x: string, word: string)
    requires LowerWord(word) && |x| == |word| && forall i :: 0 <= i < |x| ==> SameLetter(x[i], word[i])
    ensures Trimmed(x) && LowerAll(x) == word
  {}

  lemma LowerAllLetters(x: string, word: string)
    requires LowerWord(word) && LowerAll(x) == word
    ensures |x| == |word| && forall i :: 0 <= i < |x| ==> SameLetter(x[i], word[i])
  {
    forall i | 0 <= i < |x| ensures SameLetter(x[i], word[i]) {
      assert LowerAll(x)[i] == Lower(x[i]);
    }
  }

  /** A status says a word exactly when it spells it in any case with any blanks around it. */
  lemma SaysExactlyWhen(s: string, word: string)
    requires LowerWord(word)
    ensures Says(JStr(s), word) <==> Spells(s, word)
  {
    hide DropSpaces, DropTrailing, IsSpace, Blank;
    if Spells(s, word) {
      var lead, x, tail :| s == lead + (x + tail) && Blank(lead) && Blank(tail) && |x| == |word|
        && forall i :: 0 <= i < |x| ==> SameLetter(x[i], word[i]);
      LettersAreNotBlank(x, word);
      StripIs(lead, x, tail);
    }
    if Says(JStr(s), word) {
      var lead, tail := StripSplits(s);
      LowerAllLetters(Strip(s), word);
    }
  }

  /** An error field that says something: not null, false, zero, empty or blank. */
  ghost predicate SomeError(v: Json) {
    match v
    case JNull => false
    case JBool(b) => b
    case JInt(n) => n != 0
    case JFloat(x) => x != 0.0
    case JStr(s) => exists i :: 0 <= i < |s| && !IsSpace(s[i])
    case JArr(items) => |items| > 0
    case JObj(fields) => exists k :: k in fields
  }

  lemma CarriesExactlyWhen(v: Json)
    ensures Carries(v) <==> SomeError(v)
  {
    hide IsSpace;
    if v.JStr? {
      var lead, tail := StripSplits(v.s);
      assert v.s == lead + (Strip(v.s) + tail);
      if Strip(v.s) != "" {
        assert v.s[|lead|] == Strip(v.s)[0];
      } else {
        assert v.s == lead + tail;
      }
    }
  }

  /** The marks of a failure in a body, in any spelling. */
  ghost predicate FailureMarks(m: map<string, Json>) {
    || ("status" in m && m["status"].JStr? && (Spells(m["status"].s, "error") || Spells(m["status"].s, "failure")))
    || ("success" in m && m["success"] == JBool(false))
    || exists key :: key in {"error", "error_type", "error_code"} && key in m && SomeError(m[key])
  }

  ghost predicate SuccessMarks(m: map<string, Json>) {
    || ("status" in m && m["status"].JStr? && Spells(m["status"].s, "success"))
    || ("success" in m && m["success"] == JBool(true))
  }

  lemma MarksExactlyWhen(m: map<string, Json>)
    ensures IsErrorBody(m) <==> FailureMarks(m)
    ensures MarkedSuccess(m) <==> SuccessMarks(m)
  {
    hide Spells, Says, SomeError, Carries;
    if "status" in m {
      if m["status"].JStr? {
        SaysExactlyWhen(m["status"].s, "error");
        SaysExactlyWhen(m["status"].s, "failure");
        SaysExactlyWhen(m["status"].s, "success");
      } else {
        OnlyTextSays(m["status"]);
      }
    }
    if "error" in m { CarriesExactlyWhen(m["error"]); }
    if "error_type" in m { CarriesExactlyWhen(m["error_type"]); }
    if "error_code" in m { CarriesExactlyWhen(m["error_code"]); }
  }

  lemma OnlyTextSays(v: Json)
    requires !v.JStr?
    ensures forall word :: !Says(v, word)
  {}

  /** What an answer delivers: a bare list; an object without failure marks that has no `data`, or its
      `data` if the object is marked a success, or not marked at all and the data is not null. */
  ghost predicate Delivers(w: Wire, data: Json) {
    w.Body? &&
    (|| (w.payload.JArr? && data == w.payload)
     || (w.payload.JObj? && var m := w.payload.fields;
         !FailureMarks(m) &&
         (if "data" in m then
            data == m["data"] && (SuccessMarks(m) || ("status" !in m && "success" !in m && data != JNull))
          else data == w.payload)))
  }

  lemma DeliversExactlyWhen(w: Wire, data: Json)
    ensures Envelope(w) == Success(data) <==> Delivers(w, data)
  {
    hide FailureMarks, SuccessMarks, IsErrorBody, MarkedSuccess;
    if w.Body? && w.payload.JObj? {
      MarksExactlyWhen(w.payload.fields);
    }
  }

  /** Every failed answer, by its kind. */
  lemma FailureKinds(w: Wire)
    ensures Envelope(w) == Failure(NotSent) <==> w.ClientClosed? || w.TokenExpired? || w.ConnectFailed?
    ensures Envelope(w) == Failure(Transport) <==> w.ConnectionLost?
    ensures forall code :: Envelope(w) == Failure(Http(code)) <==> w.Status? && w.code == code
    ensures Envelope(w) == Failure(BadPayload) <==> w.NotJson? || (w.Body? && !w.payload.JArr? && !w.payload.JObj?)
    ensures Envelope(w) == Failure(ErrorBody) <==> w.Body? && w.payload.JObj? && !exists data :: Delivers(w, data)
  {
    forall data ensures Envelope(w) == Success(data) <==> Delivers(w, data) {
      DeliversExactlyWhen(w, data);
    }
    hide Delivers;
  }

  // ---------------------------------------------------------------- placing an order

  datatype OrderRef = Text(id: string) | Number(n: int)

  datatype Placement =
    | Accepted(id: OrderRef)
    | Refused(kind: Kind)
    | Uncertain(kind: Kind)

  function OrderId(data: Json): Option<OrderRef> {
    if !data.JObj? || "order_id" !in data.fields then None
    else match data.fields["order_id"]
      case JInt(n) => Some(Number(n))
      case JStr(s) => if Strip(s) == "" then None else Some(Text(Strip(s)))
      case _ => None
  }

  /** `place_order`: only an error before sending or a 4xx answer is a plain refusal. */
  function PlaceOrder(w: Wire): Placement {
    match Envelope(w)
    case Failure(kind) =>
      if kind == NotSent || (kind.Http? && 400 <= kind.code < 500) then Refused(kind) else Uncertain(kind)
    case Success(data) =>
      match OrderId(data)
      case None => Uncertain(BadPayload)
      case Some(id) => Accepted(id)
  }

  /** What is known of the broker: a request that never left creates nothing, nor does one answered
      with a 4xx. Anything else may or may not have created the order. */
  ghost predicate Credible(w: Wire, created: bool) {
    created ==>
      && !(w.ClientClosed? || w.TokenExpired? || w.ConnectFailed?)
      && !(w.Status? && 400 <= w.code < 500)
  }

  /** A refusal is reported exactly when no order can exist. */
  lemma RefusedExactlyWhenNothingExists(w: Wire)
    ensures PlaceOrder(w).Refused? <==> !Credible(w, true)
  {}

  /** The id an answer gives the order: an integer, or a text that is not blank, without blanks around it. */
  ghost predicate Names(data: Json, id: OrderRef) {
    data.JObj? && "order_id" in data.fields &&
    match data.fields["order_id"]
    case JInt(n) => id == Number(n)
    case JStr(s) =>
      id.Text? && id.id != "" && Trimmed(id.id)
      && exists lead, tail :: s == lead + (id.id + tail) && Blank(lead) && Blank(tail)
    case _ => false
  }

  lemma NamesExactlyWhen(data: Json, id: OrderRef)
    ensures OrderId(data) == Some(id) <==> Names(data, id)
  {
    hide DropSpaces, DropTrailing, Blank, IsSpace;
    if data.JObj? && "order_id" in data.fields && data.fields["order_id"].JStr? {
      var s := data.fields["order_id"].s;
      var lead, tail := StripSplits(s);
      if Names(data, id) {
        var lead', tail' :| s == lead' + (id.id + tail') && Blank(lead') && Blank(tail');
        StripIs(lead', id.id, tail');
      }
    }
  }

  /**
   What placing an order reports, over all answers: accepted with an id exactly when the answer
   delivers it; refused exactly for a request that never left and for a 4xx; else uncertain.
  */
  lemma PlacedExactlyWhen(w: Wire, id: OrderRef)
    ensures PlaceOrder(w) == Accepted(id) <==> exists data :: Delivers(w, data) && Names(data, id)
    ensures PlaceOrder(w).Refused? <==>
      w.ClientClosed? || w.TokenExpired? || w.ConnectFailed? || (w.Status? && 400 <= w.code < 500)
    ensures PlaceOrder(w).Refused? || PlaceOrder(w).Uncertain? ==>
      PlaceOrder(w).kind == if Envelope(w).Failure? then Envelope(w).error else BadPayload
  {
    hide Delivers, OrderId, Names;
    forall data ensures Envelope(w) == Success(data) <==> Delivers(w, data) {
      DeliversExactlyWhen(w, data);
    }
    if Envelope(w).Success? {
      NamesExactlyWhen(Envelope(w).value, id);
    }
  }

  /** One send, with whether the broker really created an order. */
  datatype Attempt = Attempt(wire: Wire, created: bool)

  ghost predicate AllCredible(attempts: seq<Attempt>) {
    forall i :: 0 <= i < |attempts| ==> Credible(attempts[i].wire, attempts[i].created)
  }

  /** Orders a caller creates that sends again as long as `again` says so. */
  function Created(attempts: seq<Attempt>, again: Placement -> bool): nat
    decreases |attempts|
  {
    if attempts == [] then 0
    else (if attempts[0].created then 1 else 0)
         + (if again(PlaceOrder(attempts[0].wire)) then Created(attempts[1..], again) else 0)
  }

  /** A caller that sends again only after a refusal. */
  ghost predicate OnlyAfterRefusal(again: Placement -> bool) {
    forall w :: again(PlaceOrder(w)) ==> PlaceOrder(w).Refused?
  }

  lemma {:induction false} RefusalsCreateNothing(attempts: seq<Attempt>, again: Placement -> bool)
    requires AllCredible(attempts) && OnlyAfterRefusal(again)
    ensures Created(attempts, again) <= 1
    decreases |attempts|
  {
    if attempts != [] {
      var a := attempts[0];
      RefusedExactlyWhenNothingExists(a.wire);
      forall i | 0 <= i < |attempts[1..]| ensures Credible(attempts[1..][i].wire, attempts[1..][i].created) {
        assert attempts[1..][i] == attempts[i + 1];
      }
      RefusalsCreateNothing(attempts[1..], again);
    }
  }

  lemma AgainAfterDoubtDuplicates(w: Wire, again: Placement -> bool)
    requires again(PlaceOrder(w)) && !PlaceOrder(w).Refused?
    ensures exists attempts :: AllCredible(attempts) && Created(attempts, again) > 1
  {
    RefusedExactlyWhenNothingExists(w);
    var a := Attempt(w, true);
    assert [a, a][1..] == [a] && [a][1..] == [];
    assert Created([a], again) == 1;
    assert AllCredible([a, a]) && Created([a, a], again) == 2;
  }

  /**
   A caller can never create two orders for one request exactly when it sends again only after a
   refusal: never after an uncertain placement.
  */
  lemma AtMostOnceExactlyWhen(again: Placement -> bool)
    ensures (forall attempts :: AllCredible(attempts) ==> Created(attempts, again) <= 1)
       <==> OnlyAfterRefusal(again)
  {
    if OnlyAfterRefusal(again) {
      forall attempts | AllCredible(attempts) ensures Created(attempts, again) <= 1 {
        RefusalsCreateNothing(attempts, again);
      }
    } else {
      var w :| again(PlaceOrder(w)) && !PlaceOrder(w).Refused?;
      AgainAfterDoubtDuplicates(w, again);
    }
  }

  // ---------------------------------------------------------------- reading the order book

  function DictRows(items: seq<Json>): (rows: seq<map<string, Json>>)
    ensures rows == [] <==> NoObject(items)
  {
    if items == [] then []
    else
      var n := |items| - 1;
      DictRows(items[..n]) + (if items[n].JObj? then [items[n].fields] else [])
  }

  predicate NoObject(items: seq<Json>) {
    forall i :: 0 <= i < |items| ==> !items[i].JObj?
  }

  /** `_rows` with one wrapper key. */
  function Rows(data: Json, key: string): Result<seq<map<string, Json>>, Kind> {
    if data == JNull then Success([])
    else if data.JArr? then Success(DictRows(data.items))
    else if data.JObj? && key in data.fields && data.fields[key].JArr? then
      Success(DictRows(data.fields[key].items))
    else Failure(BadPayload)
  }

  /** A read of rows kept under `key`. */
  function RowsOf(w: Wire, key: string): Result<seq<map<string, Json>>, Kind> {
    match Envelope(w)
    case Failure(kind) => Failure(kind)
    case Success(data) => Rows(data, key)
  }

  function GetOrderBook(w: Wire): Result<seq<map<string, Json>>, Kind> { RowsOf(w, "orders") }

  /** The list an answer offers as its rows, wherever it keeps it: bare, as `data`, or under `key`. */
  ghost predicate OffersUnder(w: Wire, key: string, items: seq<Json>) {
    w.Body? &&
    (|| w.payload == JArr(items)
     || (w.payload.JObj? && var m := w.payload.fields;
         || ("data" in m && (m["data"] == JArr(items) ||
              (m["data"].JObj? && key in m["data"].fields && m["data"].fields[key] == JArr(items))))
         || ("data" !in m && key in m && m[key] == JArr(items))))
  }

  ghost predicate Offers(w: Wire, items: seq<Json>) { OffersUnder(w, "orders", items) }

  /** `data: null` that the broker itself marks as a success. */
  ghost predicate SaysNothing(w: Wire) {
    w.Body? && w.payload.JObj? && "data" in w.payload.fields && w.payload.fields["data"] == JNull
    && MarkedSuccess(w.payload.fields)
  }

  ghost predicate FailureBody(w: Wire) {
    w.Body? && w.payload.JObj? && IsErrorBody(w.payload.fields)
  }

  /** No failure, lost connection, scalar or unmarked null is ever read as a book, empty or not. */
  lemma FailuresAreNeverABook(w: Wire)
    ensures !w.Body? || FailureBody(w) || !(w.payload.JArr? || w.payload.JObj?) ==> GetOrderBook(w).Failure?
    ensures GetOrderBook(w).Success? ==> SaysNothing(w) || exists items :: Offers(w, items)
  {
    if GetOrderBook(w).Success? && !SaysNothing(w) {
      var data := Envelope(w).value;
      var items := if data.JArr? then data.items else data.fields["orders"].items;
      assert Offers(w, items);
    }
  }

  /** The envelope is one the client unwraps: a bare list, or an object that is not an error and whose
      `data`, if it has one, is marked a success or not marked at all. */
  ghost predicate Unwrapped(w: Wire) {
    w.Body? &&
    (w.payload.JArr? ||
     (w.payload.JObj? && var m := w.payload.fields;
       !IsErrorBody(m) && ("data" in m ==> MarkedSuccess(m) || Unmarked(m))))
  }

  /** An answer that offers a list reads as an empty book exactly when its envelope is accepted and the
      list holds no object. */
  lemma EmptyBookExactlyWhen(w: Wire, items: seq<Json>)
    requires Offers(w, items)
    ensures GetOrderBook(w) == Success([]) <==> Unwrapped(w) && NoObject(items)
  {}

  /** An answer that really says there are no orders: an empty list, or a null marked a success. */
  ghost predicate SaysNoOrders(w: Wire) { SaysNothing(w) || Offers(w, []) }

  /** A list of things that are not rows, in an envelope that is accepted. */
  ghost predicate OddList(w: Wire) {
    Unwrapped(w) && exists items :: Offers(w, items) && items != [] && NoObject(items)
  }

  lemma OffersOneList(w: Wire, items: seq<Json>, others: seq<Json>)
    requires Offers(w, items) && Offers(w, others)
    ensures items == others
  {}

  /**
   The promise that an odd payload is never "no rows" is kept by every answer but one kind: an empty
   book means that the broker said there are no orders, except exactly for an accepted, non-empty
   list without an object in it.
  */
  lemma EmptyBookMeansNoOrdersExactlyWhen(w: Wire)
    ensures (GetOrderBook(w) == Success([]) ==> SaysNoOrders(w)) <==> !OddList(w)
  {
    if OddList(w) {
      var items :| Offers(w, items) && items != [] && NoObject(items);
      EmptyBookExactlyWhen(w, items);
      if Offers(w, []) {
        OffersOneList(w, items, []);
      }
      ListIsNotNull(w, items);
    } else if GetOrderBook(w) == Success([]) && !SaysNothing(w) {
      FailuresAreNeverABook(w);
      var items :| Offers(w, items);
      EmptyBookExactlyWhen(w, items);
    }
  }

  lemma ListIsNotNull(w: Wire, items: seq<Json>)
    requires Offers(w, items)
    ensures !SaysNothing(w)
  {}

  /** `rows` are the objects among `items`, every one of them once and in order; `at` says where. */
  ghost predicate ObjectsOf(rows: seq<map<string, Json>>, items: seq<Json>, at: seq<nat>) {
    && |at| == |rows|
    && (forall k :: 0 <= k < |at| ==> at[k] < |items| && items[at[k]] == JObj(rows[k]))
    && (forall j, k :: 0 <= j < k < |at| ==> at[j] < at[k])
    && (forall i :: 0 <= i < |items| && items[i].JObj? ==> i in at)
  }

  lemma OneMoreObject(rows: seq<map<string, Json>>, items: seq<Json>, at: seq<nat>, row: map<string, Json>)
    requires ObjectsOf(rows, items, at)
    ensures ObjectsOf(rows + [row], items + [JObj(row)], at + [|items|])
  {
    var at' := at + [|items|];
    forall i | 0 <= i < |items| && items[i].JObj? ensures i in at' {
      assert i in at;
    }
    assert at'[|at|] == |items|;
  }

  lemma NoObjectsYet()
    ensures ObjectsOf([], [], [])
  {}

  lemma OneMoreOther(rows: seq<map<string, Json>>, items: seq<Json>, at: seq<nat>, item: Json)
    requires ObjectsOf(rows, items, at) && !item.JObj?
    ensures ObjectsOf(rows, items + [item], at)
  {}

  lemma {:induction false} DictRowsAreTheObjects(items: seq<Json>) returns (at: seq<nat>)
    ensures ObjectsOf(DictRows(items), items, at)
  {
    hide ObjectsOf;
    if items == [] {
      at := [];
      NoObjectsYet();
    } else {
      var n := |items| - 1;
      at := DictRowsAreTheObjects(items[..n]);
      assert items == items[..n] + [items[n]];
      if items[n].JObj? {
        OneMoreObject(DictRows(items[..n]), items[..n], at, items[n].fields);
        at := at + [n];
      } else {
        OneMoreOther(DictRows(items[..n]), items[..n], at, items[n]);
        assert DictRows(items) == DictRows(items[..n]);
      }
    }
  }

  /**
   Every accepted answer that offers a list is read as exactly the objects in it: none is lost, none
   is repeated, and their order stays.
  */
  lemma RowsAreTheObjects(w: Wire, key: string, items: seq<Json>) returns (at: seq<nat>)
    requires Unwrapped(w) && OffersUnder(w, key, items)
    ensures RowsOf(w, key).Success? && ObjectsOf(RowsOf(w, key).value, items, at)
  {
    at := DictRowsAreTheObjects(items);
  }

  /** The order book of an accepted answer is every object its list holds. */
  lemma BookHasEveryRow(w: Wire, items: seq<Json>) returns (at: seq<nat>)
    requires Unwrapped(w) && Offers(w, items)
    ensures GetOrderBook(w).Success? && ObjectsOf(GetOrderBook(w).value, items, at)
  {
    at := RowsAreTheObjects(w, "orders", items);
  }

  /**
   What a read answers, over all answers: rows exactly when the envelope is accepted and offers a list,
   or is a null marked a success; and then the objects of the list, or none.
  */
  ghost predicate ReadAs(w: Wire, key: string, rows: seq<map<string, Json>>) {
    || (AcceptedNull(w) && rows == [])
    || (Unwrapped(w) && exists items, at :: OffersUnder(w, key, items) && ObjectsOf(rows, items, at))
  }

  ghost predicate AcceptedNull(w: Wire) { SaysNothing(w) && !FailureBody(w) }

  lemma RowsExactlyWhen(w: Wire, key: string)
    ensures RowsOf(w, key).Success? <==>
      AcceptedNull(w) || (Unwrapped(w) && exists items :: OffersUnder(w, key, items))
    ensures RowsOf(w, key).Success? ==> ReadAs(w, key, RowsOf(w, key).value)
  {
    if RowsOf(w, key).Success? && !AcceptedNull(w) {
      var data := Envelope(w).value;
      var items := if data.JArr? then data.items else data.fields[key].items;
      assert OffersUnder(w, key, items);
      var at := RowsAreTheObjects(w, key, items);
    }
    if Unwrapped(w) && exists items :: OffersUnder(w, key, items) {
      var items :| OffersUnder(w, key, items);
      var at := RowsAreTheObjects(w, key, items);
    }
  }

  lemma OddRowsReadAsEmptyBook()
    ensures GetOrderBook(Body(JArr([JStr("busy")]))) == Success([])
  {
    assert NoObject([JStr("busy")]);
  }

  // ---------------------------------------------------------------- positions

  datatype Product = Cnc | Intraday | Own

  /** A row with the product it was asked for (`Own`: the product it names itself). */
  datatype PositionRow = PositionRow(fields: map<string, Json>, product: Product)

  predicate QueryRefused(kind: Kind) { kind.Http? && kind.code in {400, 404, 422} }

  function Tagged(rows: seq<map<string, Json>>, product: Product): (r: seq<PositionRow>)
    ensures |r| == |rows|
    ensures Untagged(r) == rows && forall k :: 0 <= k < |r| ==> r[k].product == product
  {
    seq(|rows|, i requires 0 <= i < |rows| => PositionRow(rows[i], product))
  }

  function PositionRows(w: Wire): Result<seq<map<string, Json>>, Kind> { RowsOf(w, "net_positions") }

  function Untagged(rows: seq<PositionRow>): (r: seq<map<string, Json>>)
    ensures |r| == |rows| && forall k :: 0 <= k < |r| ==> r[k] == rows[k].fields
  {
    seq(|rows|, i requires 0 <= i < |rows| => rows[i].fields)
  }

  /** Only these three answers skip a query. */
  lemma SkippedExactlyWhen(w: Wire)
    ensures Skipped(w) <==> w.Status? && (w.code == 400 || w.code == 404 || w.code == 422)
  {
    FailureKinds(w);
  }

  /** `rows` are what the answer to one positions query holds, all named after `product`. */
  ghost predicate TakenFrom(rows: seq<PositionRow>, w: Wire, product: Product) {
    ReadAs(w, "net_positions", Untagged(rows)) && forall k :: 0 <= k < |rows| ==> rows[k].product == product
  }

  lemma TaggedIsTaken(w: Wire, product: Product)
    requires PositionRows(w).Success?
    ensures TakenFrom(Tagged(PositionRows(w).value, product), w, product)
  {
    RowsExactlyWhen(w, "net_positions");
    hide ReadAs;
  }

  /** A query the broker answers with one of three 4xx codes is skipped; any other failure of it escapes. */
  predicate Skipped(w: Wire) { Envelope(w).Failure? && QueryRefused(Envelope(w).error) }

  /**
   `get_positions`: the CNC rows and the intraday rows, each tagged with its query; without either
   query, the plain answer. It never succeeds without CNC rows: a refused CNC query is only
   survived when both were refused and the plain query answered.
  */
  method GetPositions(answers: map<Product, Wire>, plain: Wire)
    returns (r: Result<seq<PositionRow>, Kind>)
    requires Cnc in answers && Intraday in answers
    ensures !Skipped(answers[Cnc]) && PositionRows(answers[Cnc]).Failure? ==>
      r == Failure(PositionRows(answers[Cnc]).error)
    ensures r.Success? && !Skipped(answers[Cnc]) ==>
      && PositionRows(answers[Cnc]).Success?
      && (Skipped(answers[Intraday]) || PositionRows(answers[Intraday]).Success?)
      && r.value == Tagged(PositionRows(answers[Cnc]).value, Cnc)
                  + (if Skipped(answers[Intraday]) then []
                     else Tagged(PositionRows(answers[Intraday]).value, Intraday))
    ensures r.Success? && Skipped(answers[Cnc]) ==>
      && Skipped(answers[Intraday]) && PositionRows(plain).Success?
      && r.value == Tagged(PositionRows(plain).value, Own)
    ensures Skipped(answers[Cnc]) && Skipped(answers[Intraday]) ==>
      r.Success? == PositionRows(plain).Success? && (r.Failure? ==> r.error == PositionRows(plain).error)
    ensures Skipped(answers[Cnc]) && !Skipped(answers[Intraday]) ==>
      r == Failure((if PositionRows(answers[Intraday]).Failure? then PositionRows(answers[Intraday])
                    else PositionRows(answers[Cnc])).error)
    ensures PositionRows(answers[Cnc]).Success? && !Skipped(answers[Intraday]) &&
            PositionRows(answers[Intraday]).Failure? ==>
      r == Failure(PositionRows(answers[Intraday]).error)
    ensures r.Success? && Skipped(answers[Cnc]) ==> TakenFrom(r.value, plain, Own)
    ensures r.Success? && !Skipped(answers[Cnc]) ==>
      exists n | 0 <= n <= |r.value| ::
        && TakenFrom(r.value[..n], answers[Cnc], Cnc)
        && (if Skipped(answers[Intraday]) then n == |r.value|
            else TakenFrom(r.value[n..], answers[Intraday], Intraday))
    ensures PositionRows(answers[Cnc]).Success? && Skipped(answers[Intraday]) ==> r.Success?
    ensures PositionRows(answers[Cnc]).Success? && PositionRows(answers[Intraday]).Success? ==> r.Success?
  {
    var positions: seq<PositionRow> := [];
    var refused: seq<(Product, Kind)> := [];
    var products := [Cnc, Intraday];
    for i := 0 to 2
      invariant i > 0 ==> Skipped(answers[Cnc]) || PositionRows(answers[Cnc]).Success?
      invariant i > 1 ==> Skipped(answers[Intraday]) || PositionRows(answers[Intraday]).Success?
      invariant positions ==
        (if i > 0 && !Skipped(answers[Cnc]) then Tagged(PositionRows(answers[Cnc]).value, Cnc) else [])
        + (if i > 1 && !Skipped(answers[Intraday]) then
             Tagged(PositionRows(answers[Intraday]).value, Intraday) else [])
      invariant refused ==
        (if i > 0 && Skipped(answers[Cnc]) then [(Cnc, Envelope(answers[Cnc]).error)] else [])
        + (if i > 1 && Skipped(answers[Intraday]) then
             [(Intraday, Envelope(answers[Intraday]).error)] else [])
    {
      var w := answers[products[i]];
      if Skipped(w) {
        refused := refused + [(products[i], Envelope(w).error)];
        continue;
      }
      match PositionRows(w) {
        case Failure(kind) => return Failure(kind);
        case Success(rows) => positions := positions + Tagged(rows, products[i]);
      }
    }
    if |refused| == 2 {
      match PositionRows(plain) {
        case Failure(kind) => return Failure(kind);
        case Success(rows) =>
          TaggedIsTaken(plain, Own);
          return Success(Tagged(rows, Own));
      }
    }
    if |refused| == 1 && refused[0].0 == Cnc {
      return Failure(refused[0].1);
    }
    TaggedIsTaken(answers[Cnc], Cnc);
    ghost var n := |PositionRows(answers[Cnc]).value|;
    assert positions[..n] == Tagged(PositionRows(answers[Cnc]).value, Cnc);
    if Skipped(answers[Intraday]) {
      assert positions[..|positions|] == positions;
    } else {
      TaggedIsTaken(answers[Intraday], Intraday);
      assert positions[n..] == Tagged(PositionRows(answers[Intraday]).value, Intraday);
    }
    return Success(positions);
  }
}
