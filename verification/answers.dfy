/** The answers to a flooded query: what a node finds among its shared files, how that travels to the origin, and what
    the origin's search returns (search/flood.c, search/neighbors.c, search/aggregator.c). */
module Answers {
  import opened Bytes
  import opened Wrappers
  import opened Addresses
  import opened OrderedMaps
  import opened Registries
  import opened Texts
  import opened Wire
  import opened Messages
  import opened OwnResults
  import opened SeenCaches
  import opened Flood
  import opened Dedup
  import opened Coverage
  import Chunks

  const QUERY_RESULT: nat := 8
  const QUERY_ID_FIELD: nat := 17
  const ANSWER_HEAD: nat := 24   // the id, 3 bytes of padding, the count

  /** The shared files whose names contain the term, at most 256, under the node's own address. */
  function Answer(shared: seq<FileMeta>, term: string, self: Addr): (files: seq<FileMeta>)
    ensures |files| <= MAX_RESULTS
  {
    Stamped(Take(Filter(shared, ByName(term)), MAX_RESULTS), self)
  }

  lemma StampedSnoc(files: seq<FileMeta>, f: FileMeta, self: Addr)
    requires |files| < MAX_FILES_PER_PEER
    ensures Stamped(files + [f], self) == Stamped(files, self) + [f.(owner := self)]
  {
  }

  method AnswerQuery(shared: seq<FileMeta>, term: string, self: Addr) returns (results: seq<FileMeta>)
    ensures results == Answer(shared, term, self)
  {
    hide Filter, Stamped, Criterion.Matches;
    ghost var c := ByName(term);
    ghost var found := Filter(shared[..0], c);
    NothingMatched(shared, c, self);
    results := [];
    var i := 0;
    while i < |shared| && |results| < MAX_RESULTS
      invariant i <= |shared| && |results| == |found| <= MAX_RESULTS
      invariant found == Filter(shared[..i], c) && results == Stamped(found, self)
    {
      FilterSnoc(shared, i, c);
      if ByName(term).Matches(shared[i]) {
        StampedSnoc(found, shared[i], self);
        found := found + [shared[i]];
        results := results + [shared[i].(owner := self)];
      }
      i := i + 1;
    }
    InnerLoopTakes([], shared, i, c, MAX_RESULTS);
    assert [] + Filter(shared[..i], c) == Filter(shared[..i], c) && [] + Filter(shared, c) == Filter(shared, c);
  }

  /** A flooded query at a node, from its arrival to its answer: a query that is new is answered, if the shared folder can be
      read, and passed on; any other is dropped. */
  method AnswerFlood(node: FloodNode, shared: seq<FileMeta>, readable: bool, self: Addr, q: Query, term: string, now: int)
    returns (answer: seq<FileMeta>, sent: seq<(Addr, Query)>)
    requires node.Valid()
    modifies node.cache, node.cache.queryCache, node.neighbors, node.neighbors.peers
    ensures node.Valid()
    ensures var h := Handle(old(node.View()), q, now);
      && node.View() == h.node && |sent| == |h.targets|
      && (forall i :: 0 <= i < |sent| ==> q.ttl > 0 && sent[i] == (h.targets[i], PassedOn(q)))
      && answer == if h.accepted && readable then Answer(shared, term, self) else []
  {
    hide Handle, Answer;
    ghost var h := Handle(node.View(), q, now);
    var accepted;
    accepted, sent := node.HandleQuery(q, now);
    assert forall i :: 0 <= i < |sent| ==> q.ttl > 0 && sent[i] == (h.targets[i], PassedOn(q));
    answer := [];
    if accepted && readable {
      answer := AnswerQuery(shared, term, self);
    }
  }

  lemma NothingMatched(shared: seq<FileMeta>, c: Criterion, self: Addr)
    ensures Filter(shared[..0], c) == [] && Stamped([], self) == []
  {
  }

  lemma {:induction false} FilterNotLonger(files: seq<FileMeta>, c: Criterion)
    ensures |Filter(files, c)| <= |files|
  {
    if files != [] {
      FilterNotLonger(files[..|files| - 1], c);
    }
  }

  /** A node shares at most 256 files, so its answer is all of them that match. */
  lemma AnswerIff(shared: seq<FileMeta>, term: string, self: Addr, f: FileMeta)
    requires |shared| <= MAX_FILES_PER_PEER
    ensures f in Answer(shared, term, self) <==>
      exists g :: g in shared && Registries.Contains(g.name, term) && f == g.(owner := self)
  {
    hide Filter;
    var c := ByName(term);
    var all := Filter(shared, c);
    FilterNotLonger(shared, c);
    if f in Answer(shared, term, self) {
      var i :| 0 <= i < |all| && Stamped(all, self)[i] == f;
      FilteredFrom(shared, c, all[i]);
    }
    if g :| g in shared && Registries.Contains(g.name, term) && f == g.(owner := self) {
      FilteredFrom(shared, c, g);
      var i :| 0 <= i < |all| && all[i] == g;
      assert Stamped(all, self)[i] == f;
    }
  }

  // --- The answer on the wire ---

  function AnswerMessage(little: bool, id: string, files: seq<FileMeta>): seq<byte> {
    Message(little, QUERY_RESULT,
            Field(id, QUERY_ID_FIELD) + Zeros(3) + Put32(little, |files|) + Concat(FileRows(little, files)))
  }

  /** What the origin reads from a message: only the opcode is checked.  None also stands for a count that reaches
      beyond the message. */
  function DecodeAnswer(little: bool, frame: seq<byte>): Option<seq<FileMeta>> {
    if |frame| < HEADER_BYTES + ANSWER_HEAD || Get16(little, frame[..2]) != QUERY_RESULT then None
    else
      var payload := frame[HEADER_BYTES..];
      var count := Get32(little, payload[20..24]);
      if ANSWER_HEAD + FILE_BYTES * count > |payload| then None
      else Some(seq(count, i requires 0 <= i < count => DecodeFoundFile(little, AnswerRow(payload, count, i))))
  }

  function AnswerRow(payload: seq<byte>, count: nat, i: nat): (b: seq<byte>)
    requires i < count && ANSWER_HEAD + FILE_BYTES * count <= |payload|
    ensures |b| == FILE_BYTES
  {
    payload[ANSWER_HEAD + FILE_BYTES * i..ANSWER_HEAD + FILE_BYTES * i + FILE_BYTES]
  }

  lemma AnswerRowAt(head: seq<byte>, rows: seq<seq<byte>>, i: nat)
    requires |head| == ANSWER_HEAD && AreRows(rows, FILE_BYTES) && i < |rows|
    ensures |head + Concat(rows)| == ANSWER_HEAD + FILE_BYTES * |rows|
    ensures AnswerRow(head + Concat(rows), |rows|, i) == rows[i]
  {
    ConcatLength(rows, FILE_BYTES);
    RowAt(rows, FILE_BYTES, i);
    var payload := head + Concat(rows);
    assert payload[ANSWER_HEAD..] == Concat(rows);
  }

  /** An answer as bytes. */
  lemma AnswerBytes(little: bool, id: string, files: seq<FileMeta>)
    requires |files| <= 256
    ensures AnswerMessage(little, id, files)
         == BigEndian(8, 2) + [0, 1] + BigEndian(24 + 320 * |files|, 4)
            + (Field(id, 17) + Zeros(3) + BigEndian(|files|, 4) + Concat(FileRows(little, files)))
  {
    hide Concat, Field, BigEndian, Put32, FileRows, EncodeHeader, Zeros;
    AnswerLength(little, id, files);
    HeaderBytes(little, QUERY_RESULT, 24 + 320 * |files|);
    FieldRoundTrip(little, little, |files|);
  }

  lemma AnswerLength(little: bool, id: string, files: seq<FileMeta>)
    ensures |Field(id, QUERY_ID_FIELD) + Zeros(3) + Put32(little, |files|) + Concat(FileRows(little, files))| == 24 + 320 * |files|
  {
    hide EncodeFile, Concat, Field, Put32;
    ConcatLength(FileRows(little, files), FILE_BYTES);
  }

  /** A message is taken for an answer exactly when it has that opcode and holds the records it announces; the records read
      are then as many as announced, whatever their number. */
  lemma {:induction false} AnswersOnly(little: bool, frame: seq<byte>)
    ensures DecodeAnswer(little, frame).Some? <==>
      |frame| >= 32 && frame[..2] == [0, 8] && |frame| >= 32 + 320 * FromBigEndian(frame[28..32])
    ensures DecodeAnswer(little, frame).Some? ==> |DecodeAnswer(little, frame).value| == FromBigEndian(frame[28..32])
  {
    hide FromBigEndian, Get16, Get32, DecodeFoundFile, AnswerRow;
    if |frame| >= 32 {
      assert frame[HEADER_BYTES..][20..24] == frame[28..32];
      FieldReads(little, frame[28..32]);
      OpcodeEight(little, frame[..2]);
    }
  }

  lemma {:induction false} OpcodeEight(little: bool, f: seq<byte>)
    requires |f| == 2
    ensures Get16(little, f) == QUERY_RESULT <==> f == [0, 8]
  {
    hide FromBigEndian, BigEndian, Get16;
    PowersOf256();
    FieldReads(little, f);
    Chunks.FieldIs(f, 8);
    TwoBytes(8);
  }

  lemma AnswerOpcode(writer: bool, reader: bool, payload: seq<byte>)
    requires |payload| < UINT32_LIMIT
    ensures Get16(reader, Message(writer, QUERY_RESULT, payload)[..2]) == QUERY_RESULT
  {
    hide Put16, Put32, Get16;
    assert Message(writer, QUERY_RESULT, payload)[..2] == Put16(writer, QUERY_RESULT);
    FieldRoundTrip(writer, reader, QUERY_RESULT);
  }

  /** An answer is read at the origin as it was found, whatever the two machines, up to the form of the address. */
  lemma AnswerRoundTrip(writer: bool, reader: bool, id: string, files: seq<FileMeta>)
    requires |files| <= MAX_RESULTS && forall i :: 0 <= i < |files| ==> FileFits(files[i])
    ensures DecodeAnswer(reader, AnswerMessage(writer, id, files)) == Some(NormalizedFiles(files))
  {
    hide EncodeFile, DecodeFoundFile, Put32, Get32, Get16, FileFits, Concat, NormalizeAddr, Message, Field, AnswerRow;
    var rows := FileRows(writer, files);
    var head := Field(id, QUERY_ID_FIELD) + Zeros(3) + Put32(writer, |files|);
    var payload := head + Concat(rows);
    ConcatLength(rows, FILE_BYTES);
    AnswerOpcode(writer, reader, payload);
    FieldRoundTrip(writer, reader, |files|);
    assert payload[20..24] == Put32(writer, |files|);
    var decoded := DecodeAnswer(reader, AnswerMessage(writer, id, files)).value;
    forall i | 0 <= i < |files|
      ensures decoded[i] == NormalizedFiles(files)[i]
    {
      AnswerRowAt(head, rows, i);
      FileRoundTrip(writer, reader, files[i]);
    }
    assert decoded == NormalizedFiles(files);
  }

  // --- Gathering the answers ---

  class Aggregator {
    const items: array<FileMeta>
    var count: nat

    ghost predicate Valid()
      reads this
    {
      items.Length == MAX_RESULTS && count <= MAX_RESULTS
    }

    ghost function Contents(): seq<FileMeta>
      requires Valid()
      reads this, items
    {
      items[..count]
    }

    constructor ()
      ensures Valid() && fresh(items) && Contents() == []
    {
      items := new FileMeta[MAX_RESULTS](_ => FileMeta("", 0, 0, Addr("", 0)));
      count := 0;
    }

    method Add(f: FileMeta, locked: bool) returns (ok: bool)
      requires Valid()
      modifies this`count, items
      ensures Valid() && Contents() == if locked then Take(old(Contents()) + [f], MAX_RESULTS) else old(Contents())
      ensures ok <==> locked && |old(Contents())| < MAX_RESULTS
    {
      if !locked {
        return false;
      }
      if count >= MAX_RESULTS {
        return false;
      }
      items[count] := f;
      count := count + 1;
      ok := true;
    }

    /** The QUERY_RESULT branch of flood_handle_message, for a message that holds all it announces. */
    method HandleAnswer(little: bool, frame: seq<byte>)
      requires Valid()
      modifies this`count, items
      ensures Valid()
      ensures Contents() == match DecodeAnswer(little, frame)
                            case None => old(Contents())
                            case Some(files) => Take(old(Contents()) + files, 256)
    {
      var decoded := DecodeAnswer(little, frame);
      if decoded.None? {
        return;
      }
      var i := 0;
      ghost var before := Contents();
      assert before + decoded.value[..0] == before;
      while i < |decoded.value|
        invariant Valid() && i <= |decoded.value|
        invariant Contents() == Take(before + decoded.value[..i], MAX_RESULTS)
      {
        var _ := Add(decoded.value[i], true);
        TakeSnocTwice(before, decoded.value, i);
        i := i + 1;
      }
      assert decoded.value[..i] == decoded.value;
    }
  }

  lemma TakeSnocTwice(before: seq<FileMeta>, files: seq<FileMeta>, i: nat)
    requires i < |files|
    ensures Take(Take(before + files[..i], MAX_RESULTS) + [files[i]], MAX_RESULTS) == Take(before + files[..i + 1], MAX_RESULTS)
  {
    assert before + files[..i + 1] == (before + files[..i]) + [files[i]];
  }

  /** What has been gathered after some answers, in order of arrival. */
  function Gathered(answers: seq<seq<FileMeta>>): (files: seq<FileMeta>)
    ensures |files| <= MAX_RESULTS
  {
    if answers == [] then []
    else Take(Gathered(answers[..|answers| - 1]) + answers[|answers| - 1], MAX_RESULTS)
  }

  function TotalLength(answers: seq<seq<FileMeta>>): nat {
    if answers == [] then 0 else TotalLength(answers[..|answers| - 1]) + |answers[|answers| - 1]|
  }

  lemma {:induction false} GatheredFrom(answers: seq<seq<FileMeta>>, f: FileMeta)
    ensures f in Gathered(answers) ==> exists i :: 0 <= i < |answers| && f in answers[i]
    ensures TotalLength(answers) <= 256 ==>
      |Gathered(answers)| == TotalLength(answers) && (f in Gathered(answers) <==> exists i :: 0 <= i < |answers| && f in answers[i])
  {
    if answers != [] {
      var init, last := answers[..|answers| - 1], answers[|answers| - 1];
      GatheredFrom(init, f);
      assert forall i :: 0 <= i < |init| ==> answers[i] == init[i];
      assert f in Gathered(answers) ==> f in Gathered(init) || f in last;
      if f in Gathered(init) {
        var i :| 0 <= i < |init| && f in init[i];
        assert f in answers[i];
      }
    }
  }

  // --- A whole distributed search ---

  // A node's machine, what it shares, and the address it serves downloads from.
  datatype Share = Share(little: bool, files: seq<FileMeta>, serving: Addr)

  ghost predicate ShareFits(share: Share) {
    && |share.files| <= MAX_FILES_PER_PEER && AddrFits(share.serving)
    && forall i :: 0 <= i < |share.files| ==> FileFits(share.files[i])
  }

  ghost predicate SharesFit(shares: map<Addr, Share>) {
    forall v :: v in shares ==> ShareFits(shares[v])
  }

  /** What the origin reads from the answer of a node, sent as bytes and decoded there. */
  function AnswerRead(little: bool, id: string, shares: map<Addr, Share>, term: string, v: Addr): seq<FileMeta> {
    if v !in shares then []
    else
      match DecodeAnswer(little, AnswerMessage(shares[v].little, id, Answer(shares[v].files, term, shares[v].serving)))
      case Some(files) => files
      case None => []
  }

  function AnswersOf(little: bool, id: string, shares: map<Addr, Share>, term: string, arrivals: seq<Addr>): (a: seq<seq<FileMeta>>)
    ensures |a| == |arrivals| && forall i :: 0 <= i < |a| ==> a[i] == AnswerRead(little, id, shares, term, arrivals[i])
  {
    seq(|arrivals|, i requires 0 <= i < |arrivals| => AnswerRead(little, id, shares, term, arrivals[i]))
  }

  /** What search_distributed returns at a node `self` when the answers of some nodes have arrived in some order. */
  function SearchResults(little: bool, id: string, shares: map<Addr, Share>, term: string, arrivals: seq<Addr>, self: Addr): seq<FileMeta> {
    Foreign(Gathered(AnswersOf(little, id, shares, term, arrivals)), self)
  }

  lemma AnswerFits(share: Share, term: string)
    requires ShareFits(share)
    ensures forall i :: 0 <= i < |Answer(share.files, term, share.serving)| ==> FileFits(Answer(share.files, term, share.serving)[i])
  {
    hide Filter, Criterion.Matches, Fits;
    var found := Take(Filter(share.files, ByName(term)), MAX_RESULTS);
    var answer := Answer(share.files, term, share.serving);
    forall i | 0 <= i < |answer|
      ensures FileFits(answer[i])
    {
      assert found[i] in Filter(share.files, ByName(term));
      FilteredFrom(share.files, ByName(term), found[i]);
    }
  }

  /** The origin reads, from any machine on any machine, the files of a node whose names contain the term, with the node's
      address in its normal form. */
  lemma ReadIff(little: bool, id: string, shares: map<Addr, Share>, term: string, v: Addr, f: FileMeta)
    requires SharesFit(shares)
    ensures f in AnswerRead(little, id, shares, term, v) <==>
      v in shares && exists g :: g in shares[v].files && Registries.Contains(g.name, term) && f == g.(owner := NormalizeAddr(shares[v].serving))
  {
    hide DecodeAnswer, AnswerMessage, Registries.Contains, NormalizeAddr, FileFits, Answer;
    if v in shares {
      var share := shares[v];
      var answer := Answer(share.files, term, share.serving);
      AnswerFits(share, term);
      AnswerRoundTrip(share.little, little, id, answer);
      forall g: FileMeta
        ensures g in answer <==> exists h :: h in share.files && Registries.Contains(h.name, term) && g == h.(owner := share.serving)
      {
        AnswerIff(share.files, term, share.serving, g);
      }
      if f in NormalizedFiles(answer) {
        var i :| 0 <= i < |answer| && NormalizedFiles(answer)[i] == f;
        assert answer[i] in answer;
      }
      if g :| g in share.files && Registries.Contains(g.name, term) && f == g.(owner := NormalizeAddr(share.serving)) {
        var h := g.(owner := share.serving);
        assert h in answer;
        var i :| 0 <= i < |answer| && answer[i] == h;
        assert NormalizedFiles(answer)[i] == f;
      }
    }
  }

  lemma ForeignHolds(items: seq<FileMeta>, self: Addr, f: FileMeta)
    ensures f in Foreign(items, self) <==> f in items && f.owner != self
  {
    ForeignKeepsOthers(items, self, f);
  }

  // A file some node whose answer arrived shares under a name with the term, as its answer gives it.
  ghost predicate Offered(shares: map<Addr, Share>, term: string, arrivals: seq<Addr>, f: FileMeta) {
    exists v, g ::
      v in arrivals && v in shares && g in shares[v].files && Registries.Contains(g.name, term) && f == g.(owner := NormalizeAddr(shares[v].serving))
  }

  /** Every result is a file of another owner, shared by a node whose answer arrived; and with at most 256 answers in all
      nothing is missing. */
  lemma ResultsIff(little: bool, id: string, shares: map<Addr, Share>, term: string, arrivals: seq<Addr>, self: Addr, f: FileMeta)
    requires SharesFit(shares)
    ensures f in SearchResults(little, id, shares, term, arrivals, self) ==> f.owner != self && Offered(shares, term, arrivals, f)
    ensures TotalLength(AnswersOf(little, id, shares, term, arrivals)) <= 256 ==>
      (f in SearchResults(little, id, shares, term, arrivals, self) <==> f.owner != self && Offered(shares, term, arrivals, f))
  {
    hide Gathered, Foreign, AnswerRead, TotalLength, SharesFit, Registries.Contains, NormalizeAddr;
    var answers := AnswersOf(little, id, shares, term, arrivals);
    GatheredFrom(answers, f);
    ForeignHolds(Gathered(answers), self, f);
    if i :| 0 <= i < |answers| && f in answers[i] {
      assert arrivals[i] in arrivals;
      ReadIff(little, id, shares, term, arrivals[i], f);
    }
    if Offered(shares, term, arrivals, f) {
      var v, g :| v in arrivals && v in shares && g in shares[v].files && Registries.Contains(g.name, term)
                  && f == g.(owner := NormalizeAddr(shares[v].serving));
      ReadIff(little, id, shares, term, v, f);
      var i :| 0 <= i < |arrivals| && arrivals[i] == v;
      assert f in answers[i];
    }
  }

  /** Under the conditions of coverage, once the answers of all nodes that accepted the query are in, and they are at most
      256, the search has found every matching file of every node that could be reached over the neighbour lists, other
      than those under the origin's own address. */
  lemma SearchFindsEverything(s0: Net, at: Addr, id: string, ttl: nat, t0: int, actions: seq<Action>, group: set<Addr>,
                              walk: seq<Addr>, little: bool, shares: map<Addr, Share>, term: string, arrivals: seq<Addr>,
                              self: Addr, g: FileMeta)
    requires RanOut(s0, at, id, ttl, t0, actions) && Closed(Final(s0, at, id, ttl, t0, actions), group)
    requires forall v :: v != at && AcceptedAt(Final(s0, at, id, ttl, t0, actions), v, Key(id)) ==> v in arrivals
    requires at in group && |group| <= Clamp(ttl) + 1
    requires Walk(s0, walk) && walk[0] == at && walk[|walk| - 1] != at
    requires SharesFit(shares) && TotalLength(AnswersOf(little, id, shares, term, arrivals)) <= 256
    requires walk[|walk| - 1] in shares && g in shares[walk[|walk| - 1]].files && Registries.Contains(g.name, term)
    requires NormalizeAddr(shares[walk[|walk| - 1]].serving) != self
    ensures g.(owner := NormalizeAddr(shares[walk[|walk| - 1]].serving)) in SearchResults(little, id, shares, term, arrivals, self)
  {
    hide RanOut, Final, Closed, AcceptedAt, Registries.Contains, SearchResults, TotalLength, Key, NormalizeAddr, SharesFit;
    FloodCovers(s0, at, id, ttl, t0, actions, group, walk);
    var w := walk[|walk| - 1];
    var f := g.(owner := NormalizeAddr(shares[w].serving));
    assert Offered(shares, term, arrivals, f);
    ResultsIff(little, id, shares, term, arrivals, self, f);
  }
}
