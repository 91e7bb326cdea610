/** infra/discovery/mdns.go: parseMDNSPacket, from the bytes of one response to the shared maps of
    announced instances and host addresses. */
module MdnsPacket {
  import opened Bytes
  import opened DnsNames
  import opened Results

  const TYPE_A := 1
  const TYPE_PTR := 12
  const TYPE_TXT := 16
  const TYPE_SRV := 33

  /** Addresses are kept as bytes; an address that is not known is empty. */
  datatype Entry = Entry(name: Text, ip: Text, hostname: Text, port: int, txt: map<Text, Text>)

  datatype Found = Found(entries: map<Text, Entry>, addrByName: map<Text, Text>)

  function U16(data: Text, at: nat): nat
    requires at + 2 <= |data|
  {
    var hi: int, lo: int := data[at], data[at + 1];
    hi * 256 + lo
  }

  // ---- The records of a packet ----

  datatype Record = Record(name: Text, rtype: nat, start: nat, len: nat)

  /** Where the questions end, unless one of them is malformed. */
  function AfterQuestions(data: Text, offset: nat, n: nat): int
    ensures AfterQuestions(data, offset, n) >= 0 ==> AfterQuestions(data, offset, n) >= offset
    ensures AfterQuestions(data, offset, n) >= 0 && n > 0 ==> AfterQuestions(data, offset, n) <= |data|
    decreases n
  {
    if n == 0 then offset
    else
      var w := WalkFrom(data, offset, {});
      if w.Bad? || w.next + 4 > |data| then -1
      else
        WalkAdvances(data, offset, {});
        AfterQuestions(data, w.next + 4, n - 1)
  }

  /** The well-formed records from an offset on, up to the first malformed one. */
  function Records(data: Text, offset: nat, n: nat): seq<Record>
    decreases n
  {
    if n == 0 || offset + 1 >= |data| then []
    else
      var w := WalkFrom(data, offset, {});
      if w.Bad? || w.next + 10 > |data| then []
      else
        var r := Record(Join(w.labels), U16(data, w.next), w.next + 10, U16(data, w.next + 8));
        if r.start + r.len > |data| then [] else [r] + Records(data, r.start + r.len, n - 1)
  }

  function PacketRecords(data: Text): seq<Record> {
    if |data| < 12 then []
    else
      var offset := AfterQuestions(data, 12, U16(data, 4));
      if offset < 0 then [] else Records(data, offset, U16(data, 6) + U16(data, 8) + U16(data, 10))
  }

  /** Every record lies in the packet, and each begins after the one before it ends: the cursor
      strictly advances. */
  lemma {:induction false} RecordsInBounds(data: Text, offset: nat, n: nat)
    ensures InBounds(data, Records(data, offset, n))
    ensures forall k | 0 <= k < |Records(data, offset, n)| ::
              var r := Records(data, offset, n)[k]; offset + 10 < r.start && r.start + r.len <= |data|
    ensures forall j, k | 0 <= j < k < |Records(data, offset, n)| ::
              var rs := Records(data, offset, n); rs[j].start + rs[j].len < rs[k].start
    decreases n
  {
    var rs := Records(data, offset, n);
    if rs == [] {
    } else {
      WalkAdvances(data, offset, {});
      var r := rs[0];
      RecordsInBounds(data, r.start + r.len, n - 1);
      assert rs == [r] + Records(data, r.start + r.len, n - 1);
    }
  }

  // ---- What a record adds ----

  /** What strings.ToLower makes of a key. */
  type Lowering = Text -> Text

  /** The position of the first '=', or the length. */
  function IndexEq(s: Text): (i: nat)
    ensures i <= |s| && (i < |s| ==> s[i] == 61) && 61 !in s[..i]
  {
    if s == [] || s[0] == 61 then 0
    else
      assert s[..1 + IndexEq(s[1..])] == [s[0]] + s[1..][..IndexEq(s[1..])];
      1 + IndexEq(s[1..])
  }

  function AddPair(low: Lowering, txt: map<Text, Text>, kv: Text): map<Text, Text> {
    var eq := IndexEq(kv);
    if eq < |kv| then txt[low(kv[..eq]) := kv[eq + 1..]] else txt
  }

  /** The key-value strings of a TXT record, up to the first that is cut off. */
  function AddPairs(low: Lowering, txt: map<Text, Text>, rdata: Text): map<Text, Text>
    decreases |rdata|
  {
    if rdata == [] || 1 + rdata[0] > |rdata| then txt
    else AddPairs(low, AddPair(low, txt, rdata[1..1 + rdata[0]]), rdata[1 + rdata[0]..])
  }

  function EntryOf(f: Found, name: Text): Entry {
    if name in f.entries then f.entries[name] else Entry(name, [], [], 0, map[])
  }

  lemma EntryNamed(f: Found, name: Text)
    requires Proper(f)
    ensures EntryOf(f, name).name == name
  {
  }

  function WithIp(e: Entry, src: Text): Entry {
    if e.ip == [] then e.(ip := src) else e
  }

  function Add(f: Found, e: Entry): Found {
    f.(entries := f.entries[e.name := e])
  }

  function Apply(low: Lowering, f: Found, data: Text, src: Text, r: Record): Found
    requires r.start + r.len <= |data|
  {
    var rdata := data[r.start..r.start + r.len];
    if r.rtype == TYPE_A then
      if r.len == 4 then f.(addrByName := f.addrByName[r.name := rdata][r.name + [DOT] := rdata]) else f
    else if r.rtype == TYPE_PTR then
      var w := WalkFrom(data, r.start, {});
      if w.Bad? then f else Add(f, WithIp(EntryOf(f, Join(w.labels)).(name := Join(w.labels)), src))
    else if r.rtype == TYPE_SRV then
      var w := WalkFrom(data, r.start + 6, {});
      if r.len < 7 || w.Bad? then f
      else
        var e := EntryOf(f, r.name).(name := r.name, port := U16(rdata, 4), hostname := Join(w.labels));
        Add(f, WithIp(e, src))
    else if r.rtype == TYPE_TXT then
      var e := EntryOf(f, r.name);
      Add(f, WithIp(e.(name := r.name, txt := AddPairs(low, e.txt, rdata)), src))
    else f
  }

  ghost predicate InBounds(data: Text, rs: seq<Record>) {
    forall r | r in rs :: r.start + r.len <= |data|
  }

  ghost function ApplyAll(low: Lowering, f: Found, data: Text, src: Text, rs: seq<Record>): Found
    requires InBounds(data, rs)
    decreases rs
  {
    if rs == [] then f
    else
      assert rs[0] in rs;
      ApplyAll(low, Apply(low, f, data, src, rs[0]), data, src, rs[1..])
  }

  /** Entries carry their own name and know an address. */
  ghost predicate Proper(f: Found) {
    forall n | n in f.entries :: f.entries[n].name == n && f.entries[n].ip != []
  }

  /** `g` has learned something that `f` did not know, and lost nothing: every instance is still
      there, at the address it was first heard from, and with the TXT keys it had. */
  ghost predicate Learned(f: Found, g: Found, src: Text) {
    && (forall n | n in f.entries :: n in g.entries && g.entries[n].ip == f.entries[n].ip
          && f.entries[n].txt.Keys <= g.entries[n].txt.Keys)
    && (forall n | n in g.entries && n !in f.entries :: g.entries[n].ip == src)
    && f.addrByName.Keys <= g.addrByName.Keys
  }

  lemma AddPairsStep(low: Lowering, txt: map<Text, Text>, rdata: Text, pos: nat)
    requires pos <= |rdata|
    ensures AddPairs(low, txt, rdata[pos..]) ==
            if pos == |rdata| || pos + 1 + rdata[pos] > |rdata| then txt
            else AddPairs(low, AddPair(low, txt, rdata[pos + 1..pos + 1 + rdata[pos]]), rdata[pos + 1 + rdata[pos]..])
  {
    if pos < |rdata| && pos + 1 + rdata[pos] <= |rdata| {
      var l := rdata[pos];
      assert rdata[pos..][1..1 + l] == rdata[pos + 1..pos + 1 + l];
      assert rdata[pos..][1 + l..] == rdata[pos + 1 + l..];
    }
  }

  lemma RestInBounds(data: Text, r: Record, rest: seq<Record>)
    requires InBounds(data, [r] + rest)
    ensures r.start + r.len <= |data| && InBounds(data, rest) && ([r] + rest)[1..] == rest
  {
    assert r in [r] + rest;
    assert forall x | x in rest :: x in [r] + rest;
  }

  lemma NoMoreRecords(data: Text, offset: nat)
    ensures Records(data, offset, 0) == []
  {
  }

  lemma {:induction false} PairsGrow(low: Lowering, txt: map<Text, Text>, rdata: Text)
    ensures txt.Keys <= AddPairs(low, txt, rdata).Keys
    decreases |rdata|
  {
    if rdata != [] && 1 + rdata[0] <= |rdata| {
      PairsGrow(low, AddPair(low, txt, rdata[1..1 + rdata[0]]), rdata[1 + rdata[0]..]);
    }
  }

  lemma AddGrows(f: Found, e: Entry, src: Text)
    requires Proper(f) && src != []
    requires var was := EntryOf(f, e.name); e.ip == WithIp(was, src).ip && was.txt.Keys <= e.txt.Keys
    ensures Proper(Add(f, e)) && Learned(f, Add(f, e), src)
  {
  }

  /** What a record adds, if it adds an entry: one that was known or is new, with an address and no
      fewer keys. */
  lemma ApplyAdds(low: Lowering, f: Found, data: Text, src: Text, r: Record)
    requires r.start + r.len <= |data|
    ensures var g := Apply(low, f, data, src, r);
            || (g.entries == f.entries && f.addrByName.Keys <= g.addrByName.Keys)
            || exists e: Entry :: Grown(f, e, src) && g == Add(f, e)
  {
    hide WalkFrom, AddPairs, Join, EntryOf, WithIp, Add, Grown, U16;
    var e, rdata := EntryOf(f, r.name), data[r.start..r.start + r.len];
    if r.rtype == TYPE_PTR {
      var w := WalkFrom(data, r.start, {});
      if w.Walked? { KnownGrows(f, EntryOf(f, Join(w.labels)).(name := Join(w.labels)), src); }
    } else if r.rtype == TYPE_SRV {
      var w := WalkFrom(data, r.start + 6, {});
      if w.Walked? && r.len >= 7 {
        KnownGrows(f, e.(name := r.name, port := U16(rdata, 4), hostname := Join(w.labels)), src);
      }
    } else if r.rtype == TYPE_TXT {
      PairsGrow(low, e.txt, rdata);
      KnownGrows(f, e.(name := r.name, txt := AddPairs(low, e.txt, rdata)), src);
    }
  }

  lemma KnownGrows(f: Found, e: Entry, src: Text)
    requires e.ip == EntryOf(f, e.name).ip && EntryOf(f, e.name).txt.Keys <= e.txt.Keys
    ensures Grown(f, WithIp(e, src), src)
  {
  }

  predicate Grown(f: Found, e: Entry, src: Text) {
    e.ip == WithIp(EntryOf(f, e.name), src).ip && EntryOf(f, e.name).txt.Keys <= e.txt.Keys
  }

  lemma ApplyGrows(low: Lowering, f: Found, data: Text, src: Text, r: Record)
    requires r.start + r.len <= |data| && Proper(f) && src != []
    ensures Proper(Apply(low, f, data, src, r)) && Learned(f, Apply(low, f, data, src, r), src)
  {
    hide Apply;
    var g := Apply(low, f, data, src, r);
    ApplyAdds(low, f, data, src, r);
    if e: Entry :| Grown(f, e, src) && g == Add(f, e) { AddGrows(f, e, src); }
  }

  lemma NothingLearned(f: Found, data: Text, src: Text)
    ensures InBounds(data, []) && Learned(f, f, src)
  {
  }

  lemma LearnedTwice(f: Found, g: Found, h: Found, src: Text)
    requires Learned(f, g, src) && Learned(g, h, src)
    ensures Learned(f, h, src)
  {
  }

  /** A packet, whatever its bytes, only adds to what is known. */
  lemma {:induction false} PacketOnlyAdds(low: Lowering, f: Found, data: Text, src: Text, rs: seq<Record>)
    requires Proper(f) && src != [] && InBounds(data, rs)
    ensures Proper(ApplyAll(low, f, data, src, rs)) && Learned(f, ApplyAll(low, f, data, src, rs), src)
    decreases rs
  {
    hide Apply, Proper;
    if rs == [] {
    } else {
      assert rs[0] in rs;
      var g := Apply(low, f, data, src, rs[0]);
      ApplyGrows(low, f, data, src, rs[0]);
      PacketOnlyAdds(low, g, data, src, rs[1..]);
      LearnedTwice(f, g, ApplyAll(low, g, data, src, rs[1..]), src);
    }
  }

  // ---- What a responder announces is what is learned ----

  /** A resource record as a responder lays it out, section 4.1.3 of RFC 1035; `meta` is its class and
      its time to live. */
  datatype Resource = Resource(name: Text, rtype: nat, meta: Text, rdata: Text)

  ghost predicate WellFormed(x: Resource) {
    AllValid(x.name) && x.rtype < 65536 && |x.meta| == 6 && |x.rdata| < 65536
  }

  function Number16(n: nat): (b: Text)
    ensures |b| == 2
  {
    [n / 256 % 256, n % 256]
  }

  function Laid(x: Resource): Text {
    Encoded(x.name) + (Number16(x.rtype) + x.meta + Number16(|x.rdata|) + x.rdata)
  }

  function LaidAll(xs: seq<Resource>): Text {
    if xs == [] then [] else Laid(xs[0]) + LaidAll(xs[1..])
  }

  /** The record a resource is read as, when it is laid out at an offset. */
  function ReadAs(x: Resource, at: nat): Record {
    Record(TrimDot(x.name), x.rtype, at + |Encoded(x.name)| + 10, |x.rdata|)
  }

  function ReadAllAs(xs: seq<Resource>, at: nat): seq<Record> {
    if xs == [] then [] else [ReadAs(xs[0], at)] + ReadAllAs(xs[1..], at + |Laid(xs[0])|)
  }

  lemma U16At(pre: Text, n: nat, post: Text, data: Text)
    requires n < 65536 && data == pre + Number16(n) + post
    ensures U16(data, |pre|) == n
  {
  }

  lemma FixedPart(pre: Text, x: Resource, post: Text, data: Text)
    requires WellFormed(x) && data == pre + (Number16(x.rtype) + x.meta + Number16(|x.rdata|) + x.rdata) + post
    ensures |pre| + 10 + |x.rdata| + |post| == |data|
    ensures U16(data, |pre|) == x.rtype && U16(data, |pre| + 8) == |x.rdata|
    ensures data[|pre| + 10..|pre| + 10 + |x.rdata|] == x.rdata
  {
    hide U16, Number16;
    var a, b, c := Number16(x.rtype), x.meta, Number16(|x.rdata|);
    assert data == pre + a + (b + c + x.rdata + post);
    assert data == (pre + a + b) + c + (x.rdata + post);
    U16At(pre, x.rtype, b + c + x.rdata + post, data);
    U16At(pre + a + b, |x.rdata|, x.rdata + post, data);
  }

  /** One resource is read as its record, wherever it is. */
  lemma OneRead(pre: Text, x: Resource, post: Text, n: nat)
    requires WellFormed(x)
    ensures var data := pre + Laid(x) + post;
            && Records(data, |pre|, n + 1) == [ReadAs(x, |pre|)] + Records(data, |pre| + |Laid(x)|, n)
            && var r := ReadAs(x, |pre|); r.start + r.len <= |data| && data[r.start..r.start + r.len] == x.rdata
  {
    hide Encoded, TrimDot, WalkFrom, Join, AllValid, Number16, U16;
    var rest := Number16(x.rtype) + x.meta + Number16(|x.rdata|) + x.rdata;
    var data, head := pre + Laid(x) + post, pre + Encoded(x.name);
    NameParses(pre, x.name, rest, post);
    Regroup(pre, Encoded(x.name), rest, post);
    FixedPart(head, x, post, data);
  }

  /** The name at the head of what follows `pre`. */
  lemma NameParses(pre: Text, name: Text, rest: Text, post: Text)
    requires AllValid(name)
    ensures var w := WalkFrom(pre + (Encoded(name) + rest) + post, |pre|, {});
            w.Walked? && Join(w.labels) == TrimDot(name) && w.next == |pre| + |Encoded(name)|
  {
    RoundTrip(pre, name, rest + post);
    hide Encoded, TrimDot, WalkFrom, Join, AllValid;
    Regroup(pre, Encoded(name), rest, post);
  }

  /** Round trip: the records of an encoded response are the resources it was made of, in order. */
  lemma {:induction false} RecordsOfLaid(pre: Text, xs: seq<Resource>, post: Text)
    requires forall x | x in xs :: WellFormed(x)
    ensures Records(pre + LaidAll(xs) + post, |pre|, |xs|) == ReadAllAs(xs, |pre|)
    decreases xs
  {
    hide WellFormed, Laid, Records, ReadAs;
    if xs == [] {
      NoMoreRecords(pre + LaidAll(xs) + post, |pre|);
    } else {
      var x, more := xs[0], xs[1..];
      assert x in xs;
      OneRead(pre, x, LaidAll(more) + post, |more|);
      RecordsOfLaid(pre + Laid(x), more, post);
      Regroup(pre, Laid(x), LaidAll(more), post);
    }
  }

  /** A question, section 4.1.2 of RFC 1035; `kind` is its type and its class. */
  datatype Question = Question(name: Text, kind: Text)

  ghost predicate WellAsked(q: Question) { AllValid(q.name) && |q.kind| == 4 }

  function LaidQuestion(q: Question): Text { Encoded(q.name) + q.kind }

  function LaidQuestions(qs: seq<Question>): Text {
    if qs == [] then [] else LaidQuestion(qs[0]) + LaidQuestions(qs[1..])
  }

  lemma {:induction false} QuestionsSkipped(pre: Text, qs: seq<Question>, post: Text)
    requires forall q | q in qs :: WellAsked(q)
    ensures AfterQuestions(pre + LaidQuestions(qs) + post, |pre|, |qs|) == |pre| + |LaidQuestions(qs)|
    decreases qs
  {
    hide AfterQuestions, LaidQuestion, WellAsked;
    if qs == [] {
      NoMoreQuestions(pre + LaidQuestions(qs) + post, |pre|);
    } else {
      var q, more := qs[0], qs[1..];
      assert q in qs;
      OneSkipped(pre, q, LaidQuestions(more) + post, |more|);
      QuestionsSkipped(pre + LaidQuestion(q), more, post);
      Regroup(pre, LaidQuestion(q), LaidQuestions(more), post);
    }
  }

  lemma NoMoreQuestions(data: Text, offset: nat)
    ensures AfterQuestions(data, offset, 0) == offset
  {
  }

  lemma OneSkipped(pre: Text, q: Question, post: Text, n: nat)
    requires WellAsked(q)
    ensures var data := pre + LaidQuestion(q) + post;
            AfterQuestions(data, |pre|, n + 1) == AfterQuestions(data, |pre| + |LaidQuestion(q)|, n)
  {
    NameParses(pre, q.name, q.kind, post);
    hide Encoded, TrimDot, WalkFrom, Join, AllValid;
  }

  /** The numbers of questions, answers, authorities and additional records. */
  function Counts(qd: nat, an: nat, ns: nat, ar: nat): (b: Text)
    ensures |b| == 8
  {
    Number16(qd) + Number16(an) + Number16(ns) + Number16(ar)
  }

  /** Round trip of a whole response: behind the header and the questions its records are the resources
      of all three sections, in order. */
  lemma PacketOfLaid(idAndFlags: Text, qs: seq<Question>, an: nat, ns: nat, ar: nat, xs: seq<Resource>, post: Text)
    requires |idAndFlags| == 4 && |qs| < 65536 && an < 65536 && ns < 65536 && ar < 65536 && |xs| == an + ns + ar
    requires (forall q | q in qs :: WellAsked(q)) && forall x | x in xs :: WellFormed(x)
    ensures PacketRecords(idAndFlags + Counts(|qs|, an, ns, ar) + LaidQuestions(qs) + LaidAll(xs) + post)
         == ReadAllAs(xs, 12 + |LaidQuestions(qs)|)
  {
    hide WellAsked, WellFormed, LaidQuestions, LaidAll, Records, AfterQuestions, ReadAllAs, U16, Counts, PacketRecords;
    var head, asked, told := idAndFlags + Counts(|qs|, an, ns, ar), LaidQuestions(qs), LaidAll(xs);
    var data := head + asked + told + post;
    Regroup(head, asked, told, post);
    assert asked + told + post == asked + (told + post);
    assert data == idAndFlags + Counts(|qs|, an, ns, ar) + (asked + (told + post));
    CountsRead(idAndFlags, |qs|, an, ns, ar, asked + (told + post), data);
    QuestionsSkipped(head, qs, told + post);
    RecordsOfLaid(head + asked, xs, post);
    BehindQuestions(data, |head + asked|);
  }

  lemma BehindQuestions(data: Text, offset: nat)
    requires 12 <= |data| && AfterQuestions(data, 12, U16(data, 4)) == offset
    ensures PacketRecords(data) == Records(data, offset, U16(data, 6) + U16(data, 8) + U16(data, 10))
  {
    hide U16, AfterQuestions, Records;
  }

  lemma CountsRead(pre: Text, qd: nat, an: nat, ns: nat, ar: nat, post: Text, data: Text)
    requires |pre| == 4 && qd < 65536 && an < 65536 && ns < 65536 && ar < 65536
    requires data == pre + Counts(qd, an, ns, ar) + post
    ensures U16(data, 4) == qd && U16(data, 6) == an && U16(data, 8) == ns && U16(data, 10) == ar
  {
    hide Number16, U16;
    var a, b, c, d := Number16(qd), Number16(an), Number16(ns), Number16(ar);
    assert data == pre + a + (b + c + d + post) == (pre + a) + b + (c + d + post);
    assert data == (pre + a + b) + c + (d + post) == (pre + a + b + c) + d + post;
    U16At(pre, qd, b + c + d + post, data);
    U16At(pre + a, an, c + d + post, data);
    U16At(pre + a + b, ns, d + post, data);
    U16At(pre + a + b + c, ar, post, data);
  }

  lemma Regroup(pre: Text, a: Text, b: Text, post: Text)
    ensures pre + (a + b) + post == pre + a + b + post == pre + a + (b + post)
  {
  }

  lemma DataRead(pre: Text, x: Resource, post: Text)
    requires WellFormed(x)
    ensures var data, r := pre + Laid(x) + post, ReadAs(x, |pre|);
            r.start + r.len <= |data| && data[r.start..r.start + r.len] == x.rdata
  {
    OneRead(pre, x, post, 0);
  }

  /** All other instances are left alone, and so are the addresses of hosts; the instance keeps the address
      it was first heard from, which is the sender's if it is new. */
  predicate OnlyTouches(f: Found, g: Found, name: Text, src: Text) {
    && g.entries - {name} == f.entries - {name} && g.addrByName == f.addrByName
    && name in g.entries && g.entries[name].name == name
    && g.entries[name].ip == if name in f.entries && f.entries[name].ip != [] then f.entries[name].ip else src
  }

  function TxtOf(f: Found, name: Text): map<Text, Text> {
    if name in f.entries then f.entries[name].txt else map[]
  }

  /** A service record announces its port and its host, and leaves all other instances alone. */
  lemma ServiceLearned(low: Lowering, f: Found, pre: Text, x: Resource, head: Text, port: nat, host: Text, post: Text, src: Text)
    requires x.rtype == TYPE_SRV && |head| == 4 && port < 65536 && AllValid(host)
    requires x.rdata == head + Number16(port) + Encoded(host) && WellFormed(x)
    ensures var r := ReadAs(x, |pre|);
            var g := Apply(low, f, pre + Laid(x) + post, src, r);
            && OnlyTouches(f, g, r.name, src) && r.name in g.entries
            && g.entries[r.name].port == port && g.entries[r.name].hostname == TrimDot(host)
            && g.entries[r.name].txt == TxtOf(f, r.name)
  {
    hide Encoded, TrimDot, WalkFrom, Join, AllValid, Laid, U16, Number16, Apply;
    DataRead(pre, x, post);
    U16At(head, port, Encoded(host), x.rdata);
    AtLeastThree(host);
    hide WellFormed;
    var data, r := pre + Laid(x) + post, ReadAs(x, |pre|);
    HostParses(data, r.start, head + Number16(port), host);
    ServiceApplied(low, f, data, src, r, port, TrimDot(host));
  }

  lemma ServiceApplied(low: Lowering, f: Found, data: Text, src: Text, r: Record, port: nat, host: Text)
    requires r.rtype == TYPE_SRV && r.len >= 7 && r.start + r.len <= |data|
    requires U16(data[r.start..r.start + r.len], 4) == port
    requires var w := WalkFrom(data, r.start + 6, {}); w.Walked? && Join(w.labels) == host
    ensures var g := Apply(low, f, data, src, r);
            && OnlyTouches(f, g, r.name, src) && r.name in g.entries
            && g.entries[r.name].port == port && g.entries[r.name].hostname == host
            && g.entries[r.name].txt == TxtOf(f, r.name)
  {
    hide WalkFrom, Join, U16;
  }

  /** A name within a record's data. */
  lemma HostParses(data: Text, start: nat, head: Text, host: Text)
    requires AllValid(host) && start + |head + Encoded(host)| <= |data|
    requires data[start..start + |head + Encoded(host)|] == head + Encoded(host)
    ensures var w := WalkFrom(data, start + |head|, {}); w.Walked? && Join(w.labels) == TrimDot(host)
  {
    hide Encoded, TrimDot, WalkFrom, Join, AllValid;
    var end := start + |head + Encoded(host)|;
    assert data == data[..start] + (head + Encoded(host)) + data[end..];
    Regroup(data[..start], head, Encoded(host), data[end..]);
    NameParses(data[..start] + head, host, [], data[end..]);
    assert Encoded(host) + [] == Encoded(host);
  }

  lemma AtLeastThree(host: Text)
    requires AllValid(host)
    ensures |Encoded(host)| >= 3
  {
    var labels := Split(TrimDot(host));
    assert labels[0] in labels;
  }

  /** Where the instance's service is known to be stays as it was: nowhere, if it is new. */
  predicate KeepsService(f: Found, g: Found, name: Text)
    requires name in g.entries
  {
    && g.entries[name].port == (if name in f.entries then f.entries[name].port else 0)
    && g.entries[name].hostname == if name in f.entries then f.entries[name].hostname else []
  }

  /** A pointer record announces an instance by the name it points to. */
  lemma InstanceLearned(low: Lowering, f: Found, pre: Text, x: Resource, target: Text, post: Text, src: Text)
    requires x.rtype == TYPE_PTR && x.rdata == Encoded(target) && AllValid(target) && WellFormed(x)
    ensures var g := Apply(low, f, pre + Laid(x) + post, src, ReadAs(x, |pre|));
            && OnlyTouches(f, g, TrimDot(target), src) && KeepsService(f, g, TrimDot(target))
            && g.entries[TrimDot(target)].txt == TxtOf(f, TrimDot(target))
  {
    hide Encoded, TrimDot, WalkFrom, Join, AllValid, Laid, U16, Number16, Apply;
    DataRead(pre, x, post);
    hide WellFormed;
    var data, r := pre + Laid(x) + post, ReadAs(x, |pre|);
    assert [] + Encoded(target) == Encoded(target);
    HostParses(data, r.start, [], target);
    InstanceApplied(low, f, data, src, r, TrimDot(target));
  }

  lemma InstanceApplied(low: Lowering, f: Found, data: Text, src: Text, r: Record, target: Text)
    requires r.rtype == TYPE_PTR && r.start + r.len <= |data|
    requires var w := WalkFrom(data, r.start, {}); w.Walked? && Join(w.labels) == target
    ensures var g := Apply(low, f, data, src, r);
            && OnlyTouches(f, g, target, src) && KeepsService(f, g, target)
            && g.entries[target].txt == TxtOf(f, target)
  {
    hide WalkFrom, Join;
  }

  datatype Pair = Pair(key: Text, value: Text)

  const EQ: Byte := 61

  function Strings(ps: seq<Pair>): Text
    requires forall p | p in ps :: |p.key| + 1 + |p.value| < 256
  {
    if ps == [] then []
    else
      assert ps[0] in ps;
      [|ps[0].key| + 1 + |ps[0].value|] + (ps[0].key + [EQ] + ps[0].value) + Strings(ps[1..])
  }

  function SetAll(low: Lowering, txt: map<Text, Text>, ps: seq<Pair>): map<Text, Text>
    decreases |ps|
  {
    if ps == [] then txt else SetAll(low, txt[low(ps[0].key) := ps[0].value], ps[1..])
  }

  lemma PairRead(low: Lowering, txt: map<Text, Text>, p: Pair)
    requires EQ !in p.key
    ensures AddPair(low, txt, p.key + [EQ] + p.value) == txt[low(p.key) := p.value]
  {
    var kv := p.key + [EQ] + p.value;
    assert kv[|p.key|] == EQ && kv[..|p.key|] == p.key && kv[|p.key| + 1..] == p.value;
    assert IndexEq(kv) == |p.key|;
  }

  /** Round trip: the key-value strings of a text record are read back in order, a later one replacing
      an earlier one whose key is the same in lower case. */
  lemma {:induction false} StringsRead(low: Lowering, txt: map<Text, Text>, ps: seq<Pair>)
    requires forall p | p in ps :: |p.key| + 1 + |p.value| < 256 && EQ !in p.key
    ensures AddPairs(low, txt, Strings(ps)) == SetAll(low, txt, ps)
    decreases |ps|
  {
    if ps == [] {
    } else {
      var p := ps[0];
      assert p in ps;
      var kv, rdata := p.key + [EQ] + p.value, Strings(ps);
      assert rdata[1..1 + |kv|] == kv && rdata[1 + |kv|..] == Strings(ps[1..]);
      PairRead(low, txt, p);
      hide AddPair;
      StringsRead(low, txt[low(p.key) := p.value], ps[1..]);
    }
  }

  /** A text record adds its key-value strings to those of its instance. */
  lemma TextLearned(low: Lowering, f: Found, pre: Text, x: Resource, ps: seq<Pair>, post: Text, src: Text)
    requires forall p | p in ps :: |p.key| + 1 + |p.value| < 256 && EQ !in p.key
    requires x.rtype == TYPE_TXT && x.rdata == Strings(ps) && WellFormed(x)
    ensures var r := ReadAs(x, |pre|);
            var g := Apply(low, f, pre + Laid(x) + post, src, r);
            && OnlyTouches(f, g, r.name, src) && KeepsService(f, g, r.name)
            && g.entries[r.name].txt == SetAll(low, TxtOf(f, r.name), ps)
  {
    hide TrimDot, Laid, AddPairs, Strings, SetAll, WellFormed;
    DataRead(pre, x, post);
    StringsRead(low, TxtOf(f, ReadAs(x, |pre|).name), ps);
  }

  /** An address record with four bytes gives the host's address, under its name with and without a dot;
      one of any other length is passed over. */
  lemma AddressLearned(low: Lowering, f: Found, pre: Text, x: Resource, post: Text, src: Text)
    requires x.rtype == TYPE_A && WellFormed(x)
    ensures var name, g := ReadAs(x, |pre|).name, Apply(low, f, pre + Laid(x) + post, src, ReadAs(x, |pre|));
            && g.entries == f.entries
            && (if |x.rdata| == 4 then
                  && g.addrByName.Keys == f.addrByName.Keys + {name, name + [DOT]}
                  && g.addrByName[name] == g.addrByName[name + [DOT]] == x.rdata
                  && forall n | n in f.addrByName && n != name && n != name + [DOT] :: g.addrByName[n] == f.addrByName[n]
                else g == f)
  {
    hide TrimDot, Laid, WellFormed;
    DataRead(pre, x, post);
    assert |ReadAs(x, |pre|).name| < |ReadAs(x, |pre|).name + [DOT]|;
  }

  // ---- The parser ----

  class Discovery {
    const low: Lowering
    var entries: map<Text, Entry>
    var addrByName: map<Text, Text>

    function State(): Found reads this { Found(entries, addrByName) }

    constructor (low: Lowering)
      ensures State() == Found(map[], map[]) && this.low == low
    {
      this.low := low;
      entries, addrByName := map[], map[];
    }

    method Ensure(name: Text)
      modifies this`entries
      ensures entries == old(entries)[name := EntryOf(old(State()), name)]
    {
      if name !in entries {
        entries := entries[name := Entry(name, [], [], 0, map[])];
      }
      assert entries == old(entries)[name := EntryOf(old(State()), name)];
    }

    method SetIp(name: Text, src: Text)
      requires name in entries
      modifies this`entries
      ensures entries == old(entries)[name := WithIp(old(entries)[name], src)]
    {
      if entries[name].ip == [] {
        entries := entries[name := entries[name].(ip := src)];
      }
      assert entries == old(entries)[name := WithIp(old(entries)[name], src)];
    }

    method ReadTxt(name: Text, rdata: Text)
      requires name in entries
      modifies this`entries
      ensures entries == old(entries)[name := old(entries)[name].(txt := AddPairs(low, old(entries)[name].txt, rdata))]
    {
      hide AddPairs, IndexEq;
      var e, pos := entries[name], 0;
      assert rdata[0..] == rdata;
      while pos < |rdata|
        invariant pos <= |rdata| && entries == old(entries)
        invariant AddPairs(low, e.txt, rdata[pos..]) == AddPairs(low, entries[name].txt, rdata)
        invariant e == entries[name].(txt := e.txt)
      {
        var l := rdata[pos];
        AddPairsStep(low, e.txt, rdata, pos);
        if pos + 1 + l > |rdata| { break; }
        var kv := rdata[pos + 1..pos + 1 + l];
        var eq := IndexEq(kv);
        if eq < |kv| {
          e := e.(txt := e.txt[low(kv[..eq]) := kv[eq + 1..]]);
        }
        pos := pos + 1 + l;
      }
      AddPairsStep(low, e.txt, rdata, pos);
      entries := entries[name := e];
    }

    /** A PTR record's effect. */
    method Announce(ptr: Text, src: Text)
      requires Proper(State())
      modifies this`entries
      ensures State() == Add(old(State()), WithIp(EntryOf(old(State()), ptr).(name := ptr), src))
    {
      EntryNamed(State(), ptr);
      Ensure(ptr);
      SetIp(ptr, src);
      assert entries == old(entries)[ptr := WithIp(EntryOf(old(State()), ptr), src)];
    }

    /** An SRV record's effect. */
    method SetService(name: Text, port: int, host: Text, src: Text)
      requires Proper(State())
      modifies this`entries
      ensures State()
           == Add(old(State()), WithIp(EntryOf(old(State()), name).(name := name, port := port, hostname := host), src))
    {
      EntryNamed(State(), name);
      Ensure(name);
      entries := entries[name := entries[name].(port := port)];
      entries := entries[name := entries[name].(hostname := host)];
      SetIp(name, src);
      assert entries
          == old(entries)[name := WithIp(EntryOf(old(State()), name).(port := port, hostname := host), src)];
    }

    /** A TXT record's effect. */
    method SetTxt(name: Text, rdata: Text, src: Text)
      requires Proper(State())
      modifies this`entries
      ensures var e := EntryOf(old(State()), name);
              State() == Add(old(State()), WithIp(e.(name := name, txt := AddPairs(low, e.txt, rdata)), src))
    {
      EntryNamed(State(), name);
      hide AddPairs;
      ghost var e := EntryOf(State(), name);
      Ensure(name);
      ReadTxt(name, rdata);
      SetIp(name, src);
      assert entries == old(entries)[name := WithIp(e.(txt := AddPairs(low, e.txt, rdata)), src)];
    }

    /** The switch over a record's type. */
    method ApplyRecord(data: Text, src: Text, r: Record)
      requires r.start + r.len <= |data| && Proper(State())
      modifies this
      ensures State() == Apply(low, old(State()), data, src, r)
    {
      hide WalkFrom, Join, AddPairs, EntryOf, Proper, Add, WithIp;
      var rdata := data[r.start..r.start + r.len];
      if r.rtype == TYPE_A {
        if r.len == 4 {
          addrByName := addrByName[r.name := rdata];
          addrByName := addrByName[r.name + [DOT] := rdata];
        }
      } else if r.rtype == TYPE_PTR {
        var ptr, _, ok := ParseDnsName(data, r.start);
        if !ok { return; }
        Announce(ptr, src);
      } else if r.rtype == TYPE_SRV {
        if r.len < 7 { return; }
        var port := U16(rdata, 4);
        var host, _, ok := ParseDnsName(data, r.start + 6);
        if !ok { return; }
        SetService(r.name, port, host, src);
      } else if r.rtype == TYPE_TXT {
        SetTxt(r.name, rdata, src);
      }
    }

    /** The question loop: the offset of the first record, or -1 when a question is malformed. */
    method SkipQuestions(data: Text, qdCount: nat) returns (offset: int)
      ensures offset == AfterQuestions(data, 12, qdCount)
    {
      hide WalkFrom;
      offset := 12;
      for i := 0 to qdCount
        invariant 12 <= offset
        invariant AfterQuestions(data, offset, qdCount - i) == AfterQuestions(data, 12, qdCount)
      {
        var _, next, ok := ParseDnsName(data, offset);
        if !ok { return -1; }
        WalkAdvances(data, offset, {});
        next := next + 4;
        if next > |data| { return -1; }
        offset := next;
      }
    }

    /** The head of the record loop: one record and where it ends, or None where parsing stops. */
    method ReadRecord(data: Text, start: nat) returns (r: Option<Record>, offset: nat)
      ensures forall n: nat | n > 0 :: Records(data, start, n)
                == if r.None? then [] else [r.value] + Records(data, offset, n - 1)
      ensures r.Some? ==> start < r.value.start + r.value.len == offset <= |data|
    {
      hide WalkFrom, Join;
      offset := start;
      if offset + 1 >= |data| { return None, offset; }
      var name, next, ok := ParseDnsName(data, offset);
      if !ok { return None, offset; }
      WalkAdvances(data, offset, {});
      offset := next;
      if offset + 10 > |data| { return None, offset; }
      var rtype, rdlen := U16(data, offset), U16(data, offset + 8);
      offset := offset + 10;
      if offset + rdlen > |data| { return None, offset; }
      r := Some(Record(name, rtype, offset, rdlen));
      offset := offset + rdlen;
    }

    /** parseMDNSPacket: on every packet it stays in bounds and adds exactly its well-formed records. */
    method ParsePacket(data: Text, src: Text)
      requires Proper(State()) && src != []
      modifies this
      ensures Proper(State()) && Learned(old(State()), State(), src)
      ensures InBounds(data, PacketRecords(data))
              && State() == ApplyAll(low, old(State()), data, src, PacketRecords(data))
    {
      hide WalkFrom, Apply, Learned, Proper, Records, InBounds;
      ghost var f := State();
      NothingLearned(f, data, src);
      if |data| < 12 { return; }
      var qdCount, total := U16(data, 4), U16(data, 6) + U16(data, 8) + U16(data, 10);
      var offset := SkipQuestions(data, qdCount);
      if offset < 0 { return; }
      ghost var all := Records(data, offset, total);
      RecordsInBounds(data, offset, total);
      PacketOnlyAdds(low, f, data, src, all);
      for i := 0 to total
        invariant offset >= 0 && Proper(State())
        invariant var rest := Records(data, offset, total - i);
                  InBounds(data, rest) && ApplyAll(low, State(), data, src, rest) == ApplyAll(low, f, data, src, all)
      {
        var r, next := ReadRecord(data, offset);
        if r.None? { return; }
        RestInBounds(data, r.value, Records(data, next, total - i - 1));
        ApplyGrows(low, State(), data, src, r.value);
        ApplyRecord(data, src, r.value);
        offset := next;
      }
      NoMoreRecords(data, offset);
    }
  }
}
