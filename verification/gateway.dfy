/**
 * The loopback HTTP gateway of main.js: what the browser extension may learn through
 * POST actions (handleBrowserRequest) and through GET /status and GET /passwords.
 * Only the decision is modelled: status code and body as a value.
 */
module Gateway {
  import opened Wrappers
  import Seqs
  import Text
  import opened Vault

  /** A parsed POST body; `id` and `url` are None when the JSON object lacks them. */
  datatype Request = Request(action: string, id: Option<string>, url: Option<string>)

  /** The non-secret projection the extension receives for searches and listings. */
  datatype Summary = Summary(id: string, title: Option<string>, username: Option<string>, url: Option<string>)

  datatype Body =
    | Failure(message: string)
    | Pong(unlocked: bool)               // { status: 'ok', unlocked }
    | Running(unlocked: bool)            // { status: 'running', unlocked }
    | Credentials(username: Option<string>, password: Option<string>)
    | Listing(items: seq<Summary>)
    | NoBody

  datatype Response = Response(status: int, body: Body)

  function Summarize(p: PlainEntry): Summary {
    Summary(p.id, p.title, p.username, p.url)
  }

  function SummarizeAll(ps: seq<PlainEntry>): (r: seq<Summary>)
    ensures |r| == |ps|
    ensures forall i :: 0 <= i < |ps| ==> r[i] == Summarize(ps[i])
    decreases |ps|
  {
    if ps == [] then [] else [Summarize(ps[0])] + SummarizeAll(ps[1..])
  }

  /**
   * The searchByUrl filter on one decrypted entry. `host` is `new URL(x).hostname`, None where
   * the constructor throws; a missing query reaches `includes` as the text "undefined".
   */
  predicate UrlMatches(host: string -> Option<string>, query: Option<string>, p: PlainEntry) {
    if p.url.None? || p.url.value == "" then false
    else
      var entryHost := host(p.url.value);
      var queryHost := if query.Some? then host(query.value) else None;
      if entryHost.Some? && queryHost.Some? then entryHost.value == queryHost.value
      else Text.Contains(p.url.value, query.GetOr("undefined"))
  }

  /** `passwords.find(p => p.id === data.id)`; an absent id matches nothing. */
  function FindEntry(ps: seq<PlainEntry>, id: Option<string>): (r: Option<PlainEntry>)
    ensures r.Some? ==> id.Some? && r.value in ps && r.value.id == id.value
    ensures r.None? ==> id.None? || forall i :: 0 <= i < |ps| ==> ps[i].id != id.value
    ensures r.Some? ==> exists i :: 0 <= i < |ps| && ps[i] == r.value && forall j :: 0 <= j < i ==> ps[j].id != id.value
  {
    if id.None? then None
    else
      match Seqs.FirstWhere((p: PlainEntry) => p.id == id.value, ps)
      case None => None
      case Some(i) => Some(ps[i])
  }

  /** handleBrowserRequest. */
  function HandleBrowserRequest(
    c: Cipher, host: string -> Option<string>, session: Option<string>,
    stored: seq<StoredEntry>, req: Request): (r: Response)
    ensures !Unlocked(session) && req.action != "ping" ==> r == Response(401, Failure("Vault ist gesperrt"))
    ensures req.action == "ping" ==> r == Response(200, Pong(ReportsUnlocked(session)))
    ensures r.status == 200 && r.body.Credentials? ==>
      exists i :: 0 <= i < |stored| && Some(stored[i].id) == req.id
    ensures Unlocked(session) && req.action == "getPassword" ==>
      (r.status == 404 <==> req.id.None? || forall i :: 0 <= i < |stored| ==> stored[i].id != req.id.value)
    ensures Unlocked(session) && req.action != "ping" && req.action != "getPassword" && req.action != "searchByUrl" ==>
      r == Response(400, Failure("Unbekannte Aktion"))
  {
    if !Unlocked(session) && req.action != "ping" then
      Response(401, Failure("Vault ist gesperrt"))
    else if req.action == "ping" then
      Response(200, Pong(ReportsUnlocked(session)))
    else if req.action == "getPassword" then
      var ps := OpenAll(c, session.value, stored);
      match FindEntry(ps, req.id)
      case Some(entry) => Response(200, Credentials(entry.username, entry.password))
      case None => Response(404, Failure("Nicht gefunden"))
    else if req.action == "searchByUrl" then
      var ps := OpenAll(c, session.value, stored);
      Response(200, Listing(SummarizeAll(Seqs.Filter((p: PlainEntry) => UrlMatches(host, req.url, p), ps))))
    else
      Response(400, Failure("Unbekannte Aktion"))
  }

  /** The GET branch of the server: /status always answers; /passwords only while unlocked. */
  function HandleGet(c: Cipher, session: Option<string>, stored: seq<StoredEntry>, path: string): (r: Response)
    ensures path == "/status" ==> r == Response(200, Running(ReportsUnlocked(session)))
    ensures path != "/status" ==> (r.status == 404 <==> path != "/passwords" || !Unlocked(session))
    ensures r.status == 404 ==> r.body == NoBody
    ensures r.body.Listing? ==> |r.body.items| == |stored|
    ensures path == "/passwords" && Unlocked(session) ==>
      && r.status == 200 && r.body.Listing? && |r.body.items| == |stored|
      && forall i :: 0 <= i < |stored| ==> r.body.items[i] == Summarize(Open(c, session.value, stored[i]))
  {
    if path == "/status" then
      Response(200, Running(ReportsUnlocked(session)))
    else if path == "/passwords" && Unlocked(session) then
      Response(200, Listing(SummarizeAll(OpenAll(c, session.value, stored))))
    else
      Response(404, NoBody)
  }

  /**
   * While locked, nothing the gateway answers depends on the records or on the cipher:
   * no decryption happens and no record content can leak, whatever the request.
   */
  lemma LockedGatewayIgnoresRecords(
    c1: Cipher, c2: Cipher, host1: string -> Option<string>, host2: string -> Option<string>,
    session: Option<string>, s1: seq<StoredEntry>, s2: seq<StoredEntry>, req: Request, path: string)
    requires !Unlocked(session)
    ensures HandleBrowserRequest(c1, host1, session, s1, req) == HandleBrowserRequest(c2, host2, session, s2, req)
    ensures HandleGet(c1, session, s1, path) == HandleGet(c2, session, s2, path)
  {
  }

  /** Each summary of a selection comes from a kept entry. */
  lemma SelectedSummariesSound(keep: PlainEntry -> bool, ps: seq<PlainEntry>)
    ensures var items := SummarizeAll(Seqs.Filter(keep, ps));
      forall k :: 0 <= k < |items| ==> exists i :: 0 <= i < |ps| && items[k] == Summarize(ps[i]) && keep(ps[i])
  {
    var sel := Seqs.Filter(keep, ps);
    var items := SummarizeAll(sel);
    forall k | 0 <= k < |items|
      ensures exists i :: 0 <= i < |ps| && items[k] == Summarize(ps[i]) && keep(ps[i])
    {
      assert sel[k] in ps && keep(sel[k]);
      var i :| 0 <= i < |ps| && ps[i] == sel[k];
    }
  }

  /** Every kept entry is summarised. */
  lemma SelectedSummariesComplete(keep: PlainEntry -> bool, ps: seq<PlainEntry>)
    ensures var items := SummarizeAll(Seqs.Filter(keep, ps));
      forall i :: 0 <= i < |ps| && keep(ps[i]) ==> Summarize(ps[i]) in items
  {
    var sel := Seqs.Filter(keep, ps);
    var items := SummarizeAll(sel);
    Seqs.FilterComplete(keep, ps);
    forall i | 0 <= i < |ps| && keep(ps[i]) ensures Summarize(ps[i]) in items {
      assert ps[i] in sel;
      var k :| 0 <= k < |sel| && sel[k] == ps[i];
      assert items[k] == Summarize(ps[i]);
    }
  }

  /**
   * searchByUrl answers 200 with the summaries of exactly the entries whose url matches,
   * in stored order; when both urls parse, matching means equal hostnames.
   */
  lemma SearchByUrlSpec(
    c: Cipher, host: string -> Option<string>, session: Option<string>,
    stored: seq<StoredEntry>, query: string)
    requires Unlocked(session)
    ensures
      var ps := OpenAll(c, session.value, stored);
      var r := HandleBrowserRequest(c, host, session, stored, Request("searchByUrl", None, Some(query)));
      && r.status == 200 && r.body.Listing?
      && (forall k :: 0 <= k < |r.body.items| ==>
            exists i :: 0 <= i < |ps| && r.body.items[k] == Summarize(ps[i]) && UrlMatches(host, Some(query), ps[i]))
      && (forall i :: 0 <= i < |ps| && UrlMatches(host, Some(query), ps[i]) ==> Summarize(ps[i]) in r.body.items)
  {
    var keep := (p: PlainEntry) => UrlMatches(host, Some(query), p);
    var ps := OpenAll(c, session.value, stored);
    assert HandleBrowserRequest(c, host, session, stored, Request("searchByUrl", None, Some(query)))
      == Response(200, Listing(SummarizeAll(Seqs.Filter(keep, ps))));
    SelectedSummariesSound(keep, ps);
    SelectedSummariesComplete(keep, ps);
  }

  /**
   * getPassword answers with the decrypted username and password of the first stored record
   * carrying the id, and 404 when no record carries it.
   */
  lemma GetPasswordSpec(c: Cipher, host: string -> Option<string>, session: Option<string>, stored: seq<StoredEntry>, id: string)
    requires Unlocked(session)
    ensures
      var key := session.value;
      var r := HandleBrowserRequest(c, host, session, stored, Request("getPassword", Some(id), None));
      match IndexOfId(stored, id)
      case None => r == Response(404, Failure("Nicht gefunden"))
      case Some(i) => r == Response(200, Credentials(c.decrypt(stored[i].username, key), c.decrypt(stored[i].password, key)))
  {
    var ps := OpenAll(c, session.value, stored);
    var found := Seqs.FirstWhere((p: PlainEntry) => p.id == id, ps);
    match IndexOfId(stored, id)
    case None =>
      assert found.None?;
    case Some(i) =>
      assert ps[i].id == id;
      assert found.Some?;
      var j := found.value;
      assert stored[j].id == ps[j].id == id;
      assert j == i;
  }
}
