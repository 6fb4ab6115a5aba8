/** The queue of resolved domains kept for every IP address. */
module DnsQueue {

  datatype Record = A(ip: string) | Aaaa(ip: string) | OtherRecord
  datatype QueryType = TypeA | TypeAaaa | OtherType
  datatype Question = Question(qtype: QueryType, name: string)

  type Queues = map<string, seq<string>>

  /** A resolved query that was answered, or a pop. */
  datatype Action = Answer(questions: seq<Question>, records: seq<Record>) | Pop(ip: string)

  /** strings.TrimSuffix(name, ".") */
  function TrimDot(name: string): string {
    if name != "" && name[|name| - 1] == '.' then name[..|name| - 1] else name
  }

  /** One closing dot is taken off, and nothing else. */
  lemma TrimDotTakesDot(name: string)
    ensures TrimDot(name + ".") == name
    ensures name == "" || name[|name| - 1] != '.' ==> TrimDot(name) == name
  {
    assert (name + ".")[..|name|] == name;
  }

  function AddressesOf(records: seq<Record>): seq<string> {
    if records == [] then []
    else
      var front := AddressesOf(records[..|records| - 1]);
      match records[|records| - 1]
      case A(ip) => front + [ip]
      case Aaaa(ip) => front + [ip]
      case OtherRecord => front
  }

  /** The addresses that get the domain of the first question. */
  function Targets(questions: seq<Question>, records: seq<Record>): seq<string> {
    if questions == [] || questions[0].qtype == OtherType then [] else AddressesOf(records)
  }

  function QueueOf(q: Queues, ip: string): seq<string> {
    if ip in q then q[ip] else []
  }

  function Enqueued(q: Queues, ips: seq<string>, domain: string): Queues {
    if ips == [] then q
    else
      var before := Enqueued(q, ips[..|ips| - 1], domain);
      var ip := ips[|ips| - 1];
      before[ip := QueueOf(before, ip) + [domain]]
  }

  function Popped(q: Queues, ip: string): Queues {
    if |QueueOf(q, ip)| == 0 then q
    else if |QueueOf(q, ip)| == 1 then q - {ip}
    else q[ip := q[ip][1..]]
  }

  function Next(q: Queues, action: Action): Queues {
    match action
    case Answer(questions, records) =>
      if questions == [] then q else Enqueued(q, Targets(questions, records), TrimDot(questions[0].name))
    case Pop(ip) => Popped(q, ip)
  }

  function After(actions: seq<Action>): Queues {
    if actions == [] then map[] else Next(After(actions[..|actions| - 1]), actions[|actions| - 1])
  }

  // ----- The program -----

  class Server {
    var ipQueue: Queues

    constructor ()
      ensures ipQueue == After([])
    {
      ipQueue := map[];
    }

    /** The oldest domain of ip, removed from its queue; "" if there is none. */
    method PopDomain(ip: string) returns (domain: string)
      modifies this
      ensures ipQueue == Next(old(ipQueue), Pop(ip))
      ensures domain == if QueueOf(old(ipQueue), ip) == [] then "" else QueueOf(old(ipQueue), ip)[0]
    {
      var q := if ip in ipQueue then ipQueue[ip] else [];
      if |q| == 0 {
        return "";
      }
      domain := q[0];
      if |q| == 1 {
        ipQueue := ipQueue - {ip};
      } else {
        ipQueue := ipQueue[ip := q[1..]];
      }
    }

    /** What handleQuery does once the answer was sent: one domain for each address record. */
    method RecordAnswer(questions: seq<Question>, records: seq<Record>)
      modifies this
      ensures ipQueue == Next(old(ipQueue), Answer(questions, records))
    {
      if |questions| > 0 && |records| > 0 {
        var q := questions[0];
        if q.qtype == TypeA || q.qtype == TypeAaaa {
          var ips := CollectAddresses(records);
          Enqueue(ips, TrimDot(q.name));
        }
      }
    }

    method Enqueue(ips: seq<string>, domain: string)
      modifies this
      ensures ipQueue == Enqueued(old(ipQueue), ips, domain)
    {
      var i := 0;
      while i < |ips|
        invariant 0 <= i <= |ips|
        invariant ipQueue == Enqueued(old(ipQueue), ips[..i], domain)
      {
        assert ips[..i + 1][..i] == ips[..i];
        var ip := ips[i];
        ipQueue := ipQueue[ip := (if ip in ipQueue then ipQueue[ip] else []) + [domain]];
        i := i + 1;
      }
      assert ips[..i] == ips;
    }
  }

  method CollectAddresses(records: seq<Record>) returns (ips: seq<string>)
    ensures ips == AddressesOf(records)
  {
    ips := [];
    var i := 0;
    while i < |records|
      invariant 0 <= i <= |records|
      invariant ips == AddressesOf(records[..i])
    {
      assert records[..i + 1][..i] == records[..i];
      if records[i].A? {
        ips := ips + [records[i].ip];
      }
      if records[i].Aaaa? {
        ips := ips + [records[i].ip];
      }
      i := i + 1;
    }
    assert records[..i] == records;
  }

  // ----- First in, first out, for every address, over every interleaving -----

  /** The domains an answer pushes for ip: that of its first question, once for each A or AAAA record with
      this address, if the question is of one of these types. */
  function Pushes(action: Action, ip: string): seq<string> {
    if action.Pop? || action.questions == [] || action.questions[0].qtype == OtherType then []
    else Matching(action.records, ip, TrimDot(action.questions[0].name))
  }

  function Matching(records: seq<Record>, ip: string, domain: string): seq<string> {
    if records == [] then []
    else
      var last := records[|records| - 1];
      Matching(records[..|records| - 1], ip, domain) + if last == A(ip) || last == Aaaa(ip) then [domain] else []
  }

  lemma {:induction false} CopiesMatch(records: seq<Record>, ip: string, domain: string)
    ensures Copies(AddressesOf(records), ip, domain) == Matching(records, ip, domain)
  {
    if records != [] {
      var front, last := records[..|records| - 1], records[|records| - 1];
      CopiesMatch(front, ip, domain);
      if !last.OtherRecord? {
        var ips := AddressesOf(front);
        assert (ips + [last.ip])[..|ips|] == ips;
      }
    }
  }

  /** domain once for each occurrence of ip */
  function Copies(ips: seq<string>, ip: string, domain: string): seq<string> {
    if ips == [] then []
    else Copies(ips[..|ips| - 1], ip, domain) + if ips[|ips| - 1] == ip then [domain] else []
  }

  function Pushed(actions: seq<Action>, ip: string): seq<string> {
    if actions == [] then [] else Pushed(actions[..|actions| - 1], ip) + Pushes(actions[|actions| - 1], ip)
  }

  /** The domains handed out for ip so far. */
  function HandedOut(actions: seq<Action>, ip: string): seq<string> {
    if actions == [] then []
    else
      var front, last := actions[..|actions| - 1], actions[|actions| - 1];
      HandedOut(front, ip)
      + if last == Pop(ip) && QueueOf(After(front), ip) != [] then [QueueOf(After(front), ip)[0]] else []
  }

  lemma {:induction false} EnqueuedQueues(q: Queues, ips: seq<string>, domain: string, ip: string)
    ensures QueueOf(Enqueued(q, ips, domain), ip) == QueueOf(q, ip) + Copies(ips, ip, domain)
    ensures ip in Enqueued(q, ips, domain) ==> ip in q || Enqueued(q, ips, domain)[ip] != []
    ensures ip in q ==> ip in Enqueued(q, ips, domain)
  {
    if ips != [] {
      EnqueuedQueues(q, ips[..|ips| - 1], domain, ip);
    }
  }

  /** What an answer does to the queue of an address. */
  lemma {:induction false} AnswerQueues(q: Queues, action: Action, ip: string)
    requires action.Answer?
    ensures QueueOf(Next(q, action), ip) == QueueOf(q, ip) + Pushes(action, ip)
    ensures ip in Next(q, action) ==> ip in q || Next(q, action)[ip] != []
    ensures ip in q ==> ip in Next(q, action)
  {
    if action.questions == [] {
      assert QueueOf(q, ip) + [] == QueueOf(q, ip);
    } else {
      EnqueuedQueues(q, Targets(action.questions, action.records), TrimDot(action.questions[0].name), ip);
      CopiesMatch(action.records, ip, TrimDot(action.questions[0].name));
    }
  }

  lemma Regroup(a: seq<string>, b: seq<string>, c: seq<string>)
    ensures (a + b) + c == a + (b + c)
  {
  }

  lemma {:induction false} AnswerStep(actions: seq<Action>, ip: string)
    requires actions != [] && actions[|actions| - 1].Answer?
    ensures var front, last := actions[..|actions| - 1], actions[|actions| - 1];
            && HandedOut(actions, ip) + QueueOf(After(actions), ip)
               == HandedOut(front, ip) + QueueOf(After(front), ip) + Pushes(last, ip)
            && (ip in After(actions) ==> ip in After(front) || After(actions)[ip] != [])
            && (ip in After(front) && After(front)[ip] != [] && ip in After(actions) ==> After(actions)[ip] != [])
  {
    var front, last := actions[..|actions| - 1], actions[|actions| - 1];
    AnswerQueues(After(front), last, ip);
    Regroup(HandedOut(front, ip), QueueOf(After(front), ip), Pushes(last, ip));
    assert HandedOut(actions, ip) == HandedOut(front, ip) + [] == HandedOut(front, ip);
  }

  lemma {:induction false} PopStep(actions: seq<Action>, ip: string)
    requires actions != [] && actions[|actions| - 1].Pop?
    ensures var front := actions[..|actions| - 1];
            && HandedOut(actions, ip) + QueueOf(After(actions), ip) == HandedOut(front, ip) + QueueOf(After(front), ip)
            && (ip in After(actions) ==> ip in After(front))
            && (ip in After(front) && After(front)[ip] != [] && ip in After(actions) ==> After(actions)[ip] != [])
  {
    var front, last := actions[..|actions| - 1], actions[|actions| - 1];
    var q := After(front);
    PoppedQueues(q, last.ip, ip);
    var head := if last.ip == ip && QueueOf(q, ip) != [] then [QueueOf(q, ip)[0]] else [];
    assert HandedOut(actions, ip) == HandedOut(front, ip) + head;
    assert QueueOf(q, ip) == head + QueueOf(After(actions), ip);
    Regroup(HandedOut(front, ip), head, QueueOf(After(actions), ip));
  }

  /** What was handed out for an address, followed by what is queued for it, is what was pushed for it, in
      order; pops of other addresses make no difference; and no stored queue is empty. */
  lemma {:induction false} FirstInFirstOut(actions: seq<Action>, ip: string)
    ensures HandedOut(actions, ip) + QueueOf(After(actions), ip) == Pushed(actions, ip)
    ensures ip in After(actions) ==> After(actions)[ip] != []
  {
    if actions != [] {
      var front, last := actions[..|actions| - 1], actions[|actions| - 1];
      FirstInFirstOut(front, ip);
      if last.Answer? {
        AnswerStep(actions, ip);
      } else {
        PopStep(actions, ip);
        assert Pushed(front, ip) + [] == Pushed(front, ip);
      }
    }
  }

  lemma PoppedQueues(q: Queues, popped: string, ip: string)
    ensures popped != ip ==> QueueOf(Popped(q, popped), ip) == QueueOf(q, ip)
    ensures QueueOf(q, ip) == (if QueueOf(q, ip) == [] then [] else [QueueOf(q, ip)[0]]) + QueueOf(Popped(q, ip), ip)
    ensures ip in Popped(q, popped) ==> ip in q && (q[ip] != [] ==> Popped(q, popped)[ip] != [])
  {
  }

  /** As long as no question asks for the root, a pop returns "" exactly when the queue is empty. */
  lemma {:induction false} EmptyMeansNone(actions: seq<Action>, ip: string)
    requires forall a :: a in actions && a.Answer? && a.questions != [] ==> TrimDot(a.questions[0].name) != ""
    ensures forall d :: d in Pushed(actions, ip) ==> d != ""
    ensures forall d :: d in QueueOf(After(actions), ip) ==> d != ""
  {
    if actions != [] {
      var front, last := actions[..|actions| - 1], actions[|actions| - 1];
      assert last in actions && forall a :: a in front ==> a in actions;
      EmptyMeansNone(front, ip);
      if last.Answer? && last.questions != [] {
        MatchingAre(last.records, ip, TrimDot(last.questions[0].name));
      }
    }
    FirstInFirstOut(actions, ip);
    forall d | d in QueueOf(After(actions), ip)
      ensures d != ""
    {
      assert d in HandedOut(actions, ip) + QueueOf(After(actions), ip);
    }
  }

  lemma {:induction false} MatchingAre(records: seq<Record>, ip: string, domain: string)
    ensures forall d :: d in Matching(records, ip, domain) ==> d == domain
  {
    if records != [] {
      MatchingAre(records[..|records| - 1], ip, domain);
    }
  }
}
