/**
 * The score submission endpoint: it reads `{score, wallet, proof}` from the
 * JSON body and refuses the request when either of the first two is falsy.
 * Otherwise it inserts one row into `game_scores` and reports success.
 * Every failure on the way (a body that is not JSON, a `null` body, a failed
 * insert) becomes a 500.
 */
module SubmitScore {
  import opened Wrappers

  /** A parsed JSON value. */
  datatype Json = JNull | JBool(b: bool) | JNum(n: real) | JStr(s: string) | JArr(items: seq<Json>) | JObj(fields: map<string, Json>)

  /**
   * JavaScript truthiness of a value read from the body; `None` is
   * `undefined`.  JSON has no NaN, so the only falsy numbers are the zeros.
   */
  predicate Truthy(v: Option<Json>)
  {
    match v
    case None => false
    case Some(j) =>
      match j
      case JNull => false
      case JBool(b) => b
      case JNum(n) => n != 0.0
      case JStr(s) => s != ""
      case JArr(_) => true
      case JObj(_) => true
  }

  /** Reading a property off a non-null value: only objects have the field names the endpoint asks for. */
  function Field(body: Json, name: string): Option<Json>
    requires body != JNull
  {
    if body.JObj? && name in body.fields then Some(body.fields[name]) else None
  }

  /** `{ proof }`; an undefined proof is dropped when the row is serialised. */
  datatype Metadata = Metadata(proof: Option<Json>)

  /** A `game_scores` row as the endpoint writes it. */
  datatype ScoreRow = ScoreRow(walletAddress: Json, score: Json, metadata: Metadata)

  datatype Response = Ok | BadRequest(error: string) | ServerError(error: string)

  const MissingFields: string := "Missing required fields"
  const InternalError: string := "Internal Server Error"

  /** The table the endpoint writes to. */
  class GameScores {
    var rows: seq<ScoreRow>

    constructor ()
      ensures rows == []
    {
      rows := [];
    }

    /** `.insert([row])`: appends the row, or fails and leaves the table as it was. */
    method Insert(row: ScoreRow, fails: bool) returns (ok: bool)
      modifies this
      ensures ok == !fails
      ensures rows == if ok then old(rows) + [row] else old(rows)
    {
      if fails {
        return false;
      }
      rows := rows + [row];
      return true;
    }
  }

  /** The validation guard: both `score` and `wallet` truthy.  Nothing else is checked. */
  predicate Accepts(body: Json)
    requires body != JNull
  {
    Truthy(Field(body, "score")) && Truthy(Field(body, "wallet"))
  }

  /** The row an accepted body produces: the wallet and the score exactly as sent, the proof under `metadata`. */
  function RowFor(body: Json): ScoreRow
    requires body != JNull && Accepts(body)
  {
    ScoreRow(Field(body, "wallet").value, Field(body, "score").value, Metadata(Field(body, "proof")))
  }

  /**
   * The POST handler.  `body` is None when the request is not valid JSON;
   * `insertFails` says whether the database rejects the insert.
   */
  method Post(body: Option<Json>, db: GameScores, insertFails: bool) returns (resp: Response)
    modifies db
    ensures body.None? || body == Some(JNull) ==> resp == ServerError(InternalError) && db.rows == old(db.rows)
    ensures body.Some? && body.value != JNull && !Accepts(body.value) ==>
      resp == BadRequest(MissingFields) && db.rows == old(db.rows)
    ensures body.Some? && body.value != JNull && Accepts(body.value) && insertFails ==>
      resp == ServerError(InternalError) && db.rows == old(db.rows)
    ensures body.Some? && body.value != JNull && Accepts(body.value) && !insertFails ==>
      resp == Ok && db.rows == old(db.rows) + [RowFor(body.value)]
  {
    if body.None? || body.value == JNull {
      // `await request.json()` throws, or destructuring `null` does
      return ServerError(InternalError);
    }
    var json := body.value;
    var score, wallet, proof := Field(json, "score"), Field(json, "wallet"), Field(json, "proof");
    if !Truthy(score) || !Truthy(wallet) {
      return BadRequest(MissingFields);
    }
    var ok := db.Insert(ScoreRow(wallet.value, score.value, Metadata(proof)), insertFails);
    if !ok {
      return ServerError(InternalError);
    }
    return Ok;
  }

  /** The body `{score, wallet, proof}` sent with these fields (None leaves a field out). */
  function Body(score: Option<Json>, wallet: Option<Json>, proof: Option<Json>): (j: Json)
    ensures j.JObj?
  {
    var m0: map<string, Json> := map[];
    var m1 := if score.Some? then m0["score" := score.value] else m0;
    var m2 := if wallet.Some? then m1["wallet" := wallet.value] else m1;
    var m3 := if proof.Some? then m2["proof" := proof.value] else m2;
    JObj(m3)
  }

  lemma BodyFields(score: Option<Json>, wallet: Option<Json>, proof: Option<Json>)
    ensures Field(Body(score, wallet, proof), "score") == score
    ensures Field(Body(score, wallet, proof), "wallet") == wallet
    ensures Field(Body(score, wallet, proof), "proof") == proof
  {
  }

  /** A score of 0, or no score at all, is refused whatever the wallet. */
  lemma ZeroScoreRefused(wallet: Option<Json>, proof: Option<Json>)
    ensures !Accepts(Body(Some(JNum(0.0)), wallet, proof))
    ensures !Accepts(Body(None, wallet, proof))
  {
    BodyFields(Some(JNum(0.0)), wallet, proof);
    BodyFields(None, wallet, proof);
  }

  /** An empty wallet string, or no wallet, is refused whatever the score. */
  lemma EmptyWalletRefused(score: Option<Json>, proof: Option<Json>)
    ensures !Accepts(Body(score, Some(JStr("")), proof))
    ensures !Accepts(Body(score, None, proof))
  {
    BodyFields(score, Some(JStr("")), proof);
    BodyFields(score, None, proof);
  }

  /**
   * Any truthy score is taken, a negative one included, and with any proof
   * or none: the endpoint checks neither plausibility nor the proof.
   */
  lemma AnyTruthyScoreAccepted(n: real, wallet: string, proof: Option<Json>)
    requires n != 0.0 && wallet != ""
    ensures Accepts(Body(Some(JNum(n)), Some(JStr(wallet)), proof))
    ensures RowFor(Body(Some(JNum(n)), Some(JStr(wallet)), proof)) == ScoreRow(JStr(wallet), JNum(n), Metadata(proof))
  {
    BodyFields(Some(JNum(n)), Some(JStr(wallet)), proof);
  }

  /** A body that is valid JSON but not an object (a number, a string, an array) has no fields and is a 400. */
  lemma NonObjectRefused(body: Json)
    requires body != JNull && !body.JObj?
    ensures !Accepts(body)
  {
  }
}
