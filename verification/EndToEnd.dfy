// The whole arrangement of test/calculate_performance.py: generated tables, a server answering
// the harness's workers, and a file of answers compared with the expected one.

module EndToEnd {
  import opened Wrappers
  import opened Database
  import opened Metrics
  import opened AuctionSpec
  import opened AuctionLaws
  import opened Document
  import opened Generator
  import opened Agreement
  import Harness = LoadHarness
  import Server = RequestServer

  /** What the harness records for a response, which the server writes by `render`. */
  function Text(render: Response -> string, response: Option<Response>): string {
    match response
    case None => Harness.NO_CONTENTS
    case Some(r) => render(r)
  }

  /** A bid is recorded as the server writes it, and if it writes no two bids alike and none as no
      bid, the records tell the responses apart. */
  lemma TextsTellApart(render: Response -> string, v: Option<Response>, w: Option<Response>)
    ensures forall r :: Text(render, Some(r)) == render(r)
    ensures (forall r, r' :: render(r) == render(r') ==> r == r') && (forall r :: render(r) != Harness.NO_CONTENTS) ==>
      (Text(render, v) == Text(render, w) <==> v == w)
  {
  }

  /** What is recorded for a request under the given rules; `decode` reads the request. */
  ghost function ReplyBy(
    db: Db, rules: Rules, decode: string -> Request, render: Response -> string): string -> string
  {
    (data: string) => Text(render, Respond(decode(data), Winner(db, decode(data), rules)))
  }

  /** What the documents ask to be recorded. */
  ghost function DocumentedReply(db: Db, decode: string -> Request, render: Response -> string): string -> string {
    (data: string) => Text(render, Respond(decode(data), DocumentedWinner(db, decode(data))))
  }

  /** The documented winner's text and price under the request's id, or that there is none. */
  lemma DocumentedReplyExactly(db: Db, decode: string -> Request, render: Response -> string, data: string)
    ensures DocumentedReply(db, decode, render)(data) ==
      match DocumentedWinner(db, decode(data))
      case None => Harness.NO_CONTENTS
      case Some(w) => render(Response(decode(data).auctionId, w.adsTxt, w.price))
  {
  }

  // ---------- the answers a server gives ----------

  /** The text is what some handler of the Go server, serving these tables beside any other requests
      and interleaved with them in any way, has finished with for this request. */
  ghost predicate FromServer(
    db: Db, decode: string -> Request, render: Response -> string, data: string, text: string)
  {
    exists cfg: Server.Config, actions, s, h: nat ::
      && cfg.db == db && Server.Run(cfg, actions) == Some(s)
      && h < |cfg.requests| == |s.handlers| && cfg.requests[h] == decode(data) && s.handlers[h].Left?
      && text == Text(render, s.handlers[h].response)
  }

  /** However its handlers are interleaved, the Go server replies by Go's rules. */
  lemma ServerReplies(db: Db, decode: string -> Request, render: Response -> string, data: string, text: string)
    requires ValidDb(db) && FromServer(db, decode, render, data, text)
    ensures text == ReplyBy(db, GO_RULES, decode, render)(data)
  {
    var cfg: Server.Config, actions, s, h: nat :|
      && cfg.db == db && Server.Run(cfg, actions) == Some(s)
      && h < |cfg.requests| == |s.handlers| && cfg.requests[h] == decode(data) && s.handlers[h].Left?
      && text == Text(render, s.handlers[h].response);
    Server.EveryAnswerIsSequential(cfg, actions, s);
  }

  ghost predicate ServedPost(
    db: Db, decode: string -> Request, render: Response -> string, s: Harness.State, a: Harness.Action)
  {
    a.Post? && a.w < |s.workers| && s.workers[a.w].Holding? && Harness.TextOf(a.outcome).Some? ==>
      FromServer(db, decode, render, s.workers[a.w].data, Harness.TextOf(a.outcome).value)
  }

  /** Whenever a post of the harness is answered, the server has answered it. */
  ghost predicate ServedRun(
    db: Db, decode: string -> Request, render: Response -> string,
    s: Harness.State, actions: seq<Harness.Action>, total: nat)
  {
    forall i | 0 <= i < |actions| && Harness.Run(s, actions[..i], total).Some? ::
      ServedPost(db, decode, render, Harness.Run(s, actions[..i], total).value, actions[i])
  }

  lemma ServedByRules(
    db: Db, decode: string -> Request, render: Response -> string,
    s: Harness.State, actions: seq<Harness.Action>, total: nat)
    requires ValidDb(db) && ServedRun(db, decode, render, s, actions, total)
    ensures Harness.RunAnswersBy(ReplyBy(db, GO_RULES, decode, render), s, actions, total)
  {
    var reply := ReplyBy(db, GO_RULES, decode, render);
    forall i | 0 <= i < |actions| && Harness.Run(s, actions[..i], total).Some?
      ensures Harness.AnswersBy(reply, Harness.Run(s, actions[..i], total).value, actions[i])
    {
      var t, a := Harness.Run(s, actions[..i], total).value, actions[i];
      assert ServedPost(db, decode, render, t, a);
      if a.Post? && a.w < |t.workers| && t.workers[a.w].Holding? && Harness.TextOf(a.outcome).Some? {
        ServerReplies(db, decode, render, t.workers[a.w].data, Harness.TextOf(a.outcome).value);
      }
    }
  }

  // ---------- the file of answers ----------

  /** The rules and tables by which Go, C++ and, where no feature is 0, Python reply. */
  predicate Served(db: Db, served: Db, rules: Rules) {
    || (served == db && (rules == GO_RULES || rules == CPP_RULES))
    || (served == NonZeroFeatures(db) && rules == PYTHON_RULES && forall id | id in db.features :: db.features[id] != 0)
  }

  /** A request as documented, as far as the answers depend on it. */
  predicate AsDocumented(req: Request) {
    Documented(req.feature) && "" !in req.blockDomains
  }

  lemma ServedAsDocumented(db: Db, coff: nat, served: Db, rules: Rules, req: Request)
    requires Generated(db, coff) && Served(db, served, rules) && AsDocumented(req)
    ensures Winner(served, req, rules) == DocumentedWinner(db, req)
  {
    GeneratedSuits(db, coff, req);
    PlainRulesMeet(db, req);
    if rules == GO_RULES {
      GoMeetsTheDocument(db, req);
    } else if rules == CPP_RULES {
      CppMeetsTheDocument(db, req);
      OrderedTiesMeet(db, req);
    } else {
      PythonMeetsTheDocument(db, req);
      NoZerosSpareWinner(db, req);
    }
  }

  /** On generated tables every finished run of the harness leaves the documented answers, each
      once: whichever of the languages replies, however many workers ask it, in whatever order,
      and however often it fails. */
  lemma ResultsAreDocumented(
    db: Db, coff: nat, served: Db, rules: Rules, decode: string -> Request, render: Response -> string,
    requests: seq<string>, n: nat, actions: seq<Harness.Action>, s: Harness.State)
    requires Generated(db, coff) && Served(db, served, rules)
    requires forall data :: data in requests ==> AsDocumented(decode(data))
    requires n > 0 && Harness.Run(Harness.Init(requests, n), actions, |requests|) == Some(s) && Harness.Over(s)
    requires Harness.RunAnswersBy(
      ReplyBy(served, rules, decode, render), Harness.Init(requests, n), actions, |requests|)
    ensures multiset(s.responses) == multiset(Harness.RepliesTo(DocumentedReply(db, decode, render), requests))
  {
    var reply, documented := ReplyBy(served, rules, decode, render), DocumentedReply(db, decode, render);
    Harness.AnswersAreReplies(reply, requests, n, actions, s);
    forall i | 0 <= i < |requests| ensures reply(requests[i]) == documented(requests[i]) {
      assert requests[i] in requests;
      ServedAsDocumented(db, coff, served, rules, decode(requests[i]));
    }
    assert Harness.RepliesTo(reply, requests) == Harness.RepliesTo(documented, requests);
  }

  /** Generator, Go server and harness together: whatever tables are drawn, however the server's
      handlers and the harness's workers are interleaved, and whatever fails on the way, a finished
      run leaves the documented answers, each once. */
  lemma ServerResultsAreDocumented(
    db: Db, coff: nat, decode: string -> Request, render: Response -> string,
    requests: seq<string>, n: nat, actions: seq<Harness.Action>, s: Harness.State)
    requires Generated(db, coff) && forall data :: data in requests ==> AsDocumented(decode(data))
    requires n > 0 && Harness.Run(Harness.Init(requests, n), actions, |requests|) == Some(s) && Harness.Over(s)
    requires ServedRun(db, decode, render, Harness.Init(requests, n), actions, |requests|)
    ensures multiset(s.responses) == multiset(Harness.RepliesTo(DocumentedReply(db, decode, render), requests))
  {
    GeneratedTables(db, coff);
    ServedByRules(db, decode, render, Harness.Init(requests, n), actions, |requests|);
    ResultsAreDocumented(db, coff, db, GO_RULES, decode, render, requests, n, actions, s);
  }
}
