/** infra/discovery/mdns.go: domain names on the wire, by sections 3.1 and 4.1.4 of RFC 1035. */
module DnsNames {
  import opened Bytes

  const DOT: Byte := 46

  // ---- Dotted names ----

  /** strings.TrimSuffix(name, "."). */
  function TrimDot(name: Text): Text {
    if name != [] && name[|name| - 1] == DOT then name[..|name| - 1] else name
  }

  /** strings.Split(name, "."): the stretches between the dots, at least one. */
  function Split(name: Text): (labels: seq<Text>)
    ensures |labels| > 0
    ensures forall l | l in labels :: DOT !in l
  {
    if name == [] then [[]]
    else
      var rest := Split(name[1..]);
      if name[0] == DOT then [[]] + rest else [[name[0]] + rest[0]] + rest[1..]
  }

  /** strings.Join(labels, "."). */
  function Join(labels: seq<Text>): Text {
    if labels == [] then []
    else if |labels| == 1 then labels[0]
    else labels[0] + [DOT] + Join(labels[1..])
  }

  lemma {:induction false} JoinSplit(name: Text)
    ensures Join(Split(name)) == name
  {
    if name == [] {
    } else {
      JoinSplit(name[1..]);
      var rest := Split(name[1..]);
      if name[0] == DOT {
        assert ([[]] + rest)[1..] == rest;
      } else if |rest| > 1 {
        assert ([[name[0]] + rest[0]] + rest[1..])[1..] == rest[1..];
      }
    }
  }

  lemma {:induction false} JoinAppend(a: seq<Text>, b: seq<Text>)
    requires a != [] && b != []
    ensures Join(a + b) == Join(a) + [DOT] + Join(b)
  {
    if |a| > 1 {
      assert (a + b)[1..] == a[1..] + b;
      JoinAppend(a[1..], b);
    } else {
      assert (a + b)[1..] == b;
    }
  }

  // ---- Encoding ----

  /** The labels on the wire; a length is cut to one byte. */
  function Wire(labels: seq<Text>): Text {
    if labels == [] then [] else [|labels[0]| % 256] + labels[0] + Wire(labels[1..])
  }

  function Encoded(name: Text): Text {
    Wire(Split(TrimDot(name))) + [0]
  }

  lemma WireFrom(labels: seq<Text>, i: nat)
    requires i < |labels|
    ensures Wire(labels[i..]) == [|labels[i]| % 256] + labels[i] + Wire(labels[i + 1..])
  {
    assert labels[i..][1..] == labels[i + 1..];
  }

  /** encodeDNSName. */
  method EncodeDnsName(name: Text) returns (buf: Text)
    ensures buf == Encoded(name)
  {
    hide Split, TrimDot, Wire;
    var labels := Split(TrimDot(name));
    buf := [];
    assert labels[0..] == labels && labels[|labels|..] == [];
    PrependNone(Bad);
    for i := 0 to |labels|
      invariant buf + Wire(labels[i..]) == Wire(labels)
    {
      WireFrom(labels, i);
      buf := buf + [|labels[i]| % 256];
      buf := buf + labels[i];
    }
    buf := buf + [0];
  }

  // ---- Decoding ----

  /** The labels from an offset on, and the offset just past the name where it was met. */
  datatype Walk = Bad | Walked(labels: seq<Text>, next: nat)

  function Pointer(hi: Byte, lo: Byte): nat { hi % 64 * 256 + lo }

  function Offsets(n: nat): (s: set<int>)
    ensures forall i :: i in s <==> 0 <= i < n
  {
    if n == 0 then {} else Offsets(n - 1) + {n - 1}
  }

  /** What the walk uses up: the offsets in the message it has not been to. */
  function Unvisited(data: Text, visited: set<int>): set<int> {
    Offsets(|data|) - visited
  }

  /** The walk along labels and pointers.  It ends at a zero byte, or where an offset leaves the
      message; it fails at an offset it has been to, at a length that is neither a label's nor a
      pointer's, and at a label or pointer that is cut off. */
  function WalkFrom(data: Text, off: nat, visited: set<int>): Walk
    decreases Unvisited(data, visited)
  {
    if off >= |data| then Walked([], off)
    else if off in visited then Bad
    else
      var b := data[off];
      if b == 0 then Walked([], off + 1)
      else if b >= 192 then
        if off + 1 >= |data| then Bad
        else
          assert off in Unvisited(data, visited);
          var rest := WalkFrom(data, Pointer(b, data[off + 1]), visited + {off});
          if rest.Bad? then Bad else Walked(rest.labels, off + 2)
      else if b >= 64 || off + 1 + b > |data| then Bad
      else
        assert off in Unvisited(data, visited);
        var rest := WalkFrom(data, off + 1 + b, visited + {off});
        if rest.Bad? then Bad else Walked([data[off + 1..off + 1 + b]] + rest.labels, rest.next)
  }

  /** One step of the walk. */
  lemma WalkStep(data: Text, off: nat, visited: set<int>)
    ensures WalkFrom(data, off, visited) ==
      if off >= |data| then Walked([], off)
      else if off in visited then Bad
      else if data[off] == 0 then Walked([], off + 1)
      else if data[off] >= 192 then
        if off + 1 >= |data| then Bad
        else Through(WalkFrom(data, Pointer(data[off], data[off + 1]), visited + {off}), off + 2)
      else if data[off] >= 64 || off + 1 + data[off] > |data| then Bad
      else Prepend([data[off + 1..off + 1 + data[off]]], WalkFrom(data, off + 1 + data[off], visited + {off}))
  {
  }

  function Through(w: Walk, next: nat): Walk {
    if w.Bad? then Bad else Walked(w.labels, next)
  }

  lemma PrependOneMore(was: seq<Text>, l: Text, w: Walk)
    ensures w.Walked? ==> was + Prepend([l], w).labels == (was + [l]) + w.labels
  {
    if w.Walked? { assert was + ([l] + w.labels) == was + [l] + w.labels; }
  }

  /** parseDNSName, on every byte string and offset: it ends, stays in bounds, and answers the walk. */
  method ParseDnsName(data: Text, start: nat) returns (name: Text, next: int, ok: bool)
    ensures var w := WalkFrom(data, start, {});
            if w.Bad? then !ok else ok && name == Join(w.labels) && next == w.next
  {
    hide WalkFrom, Pointer, Join;
    var offset: nat, nextOffset := start, -1;
    var parts: seq<Text> := [];
    var visited: set<int> := {};
    PrependNone(WalkFrom(data, start, {}));
    while offset < |data|
      invariant nextOffset >= -1
      invariant var w, v := WalkFrom(data, start, {}), WalkFrom(data, offset, visited);
                if v.Bad? then w.Bad?
                else w == Walked(parts + v.labels, if nextOffset < 0 then v.next else nextOffset)
      decreases Unvisited(data, visited)
    {
      WalkStep(data, offset, visited);
      if offset in visited { return [], 0, false; }
      assert offset in Unvisited(data, visited);
      visited := visited + {offset};
      var b := data[offset];
      if b == 0 {
        offset := offset + 1;
        break;
      }
      if b >= 192 {
        if offset + 1 >= |data| { return [], 0, false; }
        var ptr := Pointer(b, data[offset + 1]);
        if nextOffset < 0 { nextOffset := offset + 2; }
        offset := ptr;
        continue;
      }
      if b >= 64 { return [], 0, false; }
      offset := offset + 1;
      if offset + b > |data| { return [], 0, false; }
      PrependOneMore(parts, data[offset..offset + b], WalkFrom(data, offset + b, visited));
      parts := parts + [data[offset..offset + b]];
      offset := offset + b;
    }
    if offset >= |data| { WalkStep(data, offset, visited); }
    if nextOffset < 0 { nextOffset := offset; }
    assert parts + [] == parts;
    return Join(parts), nextOffset, true;
  }

  /** From an offset in the message a successful walk ends further on and no later than its end. */
  lemma {:induction false} WalkAdvances(data: Text, off: nat, visited: set<int>)
    requires WalkFrom(data, off, visited).Walked?
    ensures var next := WalkFrom(data, off, visited).next;
            if off < |data| then off < next <= |data| else next == off
    decreases Unvisited(data, visited)
  {
    if off < |data| && 0 < data[off] < 64 {
      assert off in Unvisited(data, visited);
      WalkAdvances(data, off + 1 + data[off], visited + {off});
    }
  }

  // ---- Round trips ----

  predicate ValidLabel(l: Text) { 1 <= |l| <= 63 }

  function Prepend(labels: seq<Text>, w: Walk): Walk {
    if w.Bad? then Bad else Walked(labels + w.labels, w.next)
  }

  /** Walking over labels laid out in the message picks them up and goes on behind them, having
      been to offsets among them only. */
  lemma {:induction false} WalkWire(data: Text, off: nat, labels: seq<Text>, visited: set<int>) returns (seen: set<int>)
    requires forall l | l in labels :: ValidLabel(l)
    requires off + |Wire(labels)| <= |data| && data[off..off + |Wire(labels)|] == Wire(labels)
    requires forall v | v in visited :: !(off <= v < off + |Wire(labels)|)
    ensures WalkFrom(data, off, visited) == Prepend(labels, WalkFrom(data, off + |Wire(labels)|, seen))
    ensures forall v | v in seen :: v in visited || off <= v < off + |Wire(labels)|
    decreases |labels|
  {
    hide WalkFrom, Wire, Prepend;
    if labels == [] {
      seen := visited;
      PrependNone(WalkFrom(data, off, visited));
    } else {
      assert labels[0] in labels;
      WireParts(data, off, labels);
      WalkLabel(data, off, labels[0], visited);
      seen := WalkWire(data, off + 1 + |labels[0]|, labels[1..], visited + {off});
      PrependCons(labels, WalkFrom(data, off + |Wire(labels)|, seen));
    }
  }

  lemma WireParts(data: Text, off: nat, labels: seq<Text>)
    requires labels != [] && ValidLabel(labels[0])
    requires off + |Wire(labels)| <= |data| && data[off..off + |Wire(labels)|] == Wire(labels)
    ensures var after := off + 1 + |labels[0]|;
            && |Wire(labels)| == 1 + |labels[0]| + |Wire(labels[1..])|
            && data[off] == |labels[0]| && data[off + 1..after] == labels[0]
            && data[after..after + |Wire(labels[1..])|] == Wire(labels[1..])
  {
    Pieces(data, off, |labels[0]|, labels[0], Wire(labels[1..]));
  }

  lemma Pieces(data: Text, off: nat, n: Byte, l: Text, rest: Text)
    requires off + |[n] + l + rest| <= |data| && data[off..off + |[n] + l + rest|] == [n] + l + rest
    ensures var after := off + 1 + |l|;
            data[off] == n && data[off + 1..after] == l && data[after..after + |rest|] == rest
  {
    var wire := [n] + l + rest;
    assert data[off] == wire[0];
    SliceOfSlice(data, off, |wire|, 1, 1 + |l|);
    SliceOfSlice(data, off, |wire|, 1 + |l|, |wire|);
    assert wire[1..1 + |l|] == l && wire[1 + |l|..|wire|] == rest;
  }

  lemma SliceOfSlice(data: Text, off: nat, n: nat, i: nat, j: nat)
    requires off + n <= |data| && i <= j <= n
    ensures data[off..off + n][i..j] == data[off + i..off + j]
  {
    var a, b := data[off..off + n][i..j], data[off + i..off + j];
    forall k | 0 <= k < j - i ensures a[k] == b[k] {}
  }

  lemma PrependNone(w: Walk)
    ensures Prepend([], w) == w && Wire([]) == []
  {
    if w.Walked? { assert [] + w.labels == w.labels; }
  }

  lemma PrependCons(labels: seq<Text>, w: Walk)
    requires labels != []
    ensures Prepend([labels[0]], Prepend(labels[1..], w)) == Prepend(labels, w)
  {
    if w.Walked? {
      assert [labels[0]] + (labels[1..] + w.labels) == labels + w.labels;
    }
  }

  lemma WalkLabel(data: Text, off: nat, l: Text, visited: set<int>)
    requires ValidLabel(l) && off + 1 + |l| <= |data| && off !in visited
    requires data[off] == |l| && data[off + 1..off + 1 + |l|] == l
    ensures WalkFrom(data, off, visited) == Prepend([l], WalkFrom(data, off + 1 + |l|, visited + {off}))
  {
  }

  /** How a name can be laid out: its own labels, and then the root or a pointer to a layout. */
  datatype Layout = Root(own: seq<Text>) | Pointed(own: seq<Text>, target: nat, rest: Layout)

  function LabelsOf(e: Layout): seq<Text> {
    match e
    case Root(own) => own
    case Pointed(own, _, rest) => own + LabelsOf(rest)
  }

  /** The offset just past the layout's own part. */
  function EndOf(start: nat, e: Layout): nat {
    match e
    case Root(own) => start + |Wire(own)| + 1
    case Pointed(own, _, _) => start + |Wire(own)| + 2
  }

  /** The layout is in the message at `start`, each pointer going to a complete layout before the
      part it ends. */
  ghost predicate LaidOut(data: Text, start: nat, e: Layout)
    decreases e
  {
    var p := start + |Wire(e.own)|;
    && (forall l | l in e.own :: ValidLabel(l))
    && EndOf(start, e) <= |data| && data[start..p] == Wire(e.own)
    && match e
       case Root(_) => data[p] == 0
       case Pointed(_, target, rest) =>
         && target < 16384 && data[p] == 192 + target / 256 && data[p + 1] == target % 256
         && EndOf(target, rest) <= start && LaidOut(data, target, rest)
  }

  lemma WalkEnds(data: Text, p: nat, visited: set<int>)
    requires p < |data| && data[p] == 0 && p !in visited
    ensures WalkFrom(data, p, visited) == Walked([], p + 1)
  {
  }

  /** A pointer is two bytes: the two high bits set, and 14 bits of offset. */
  lemma WalkPointer(data: Text, p: nat, target: nat, visited: set<int>)
    requires p + 1 < |data| && target < 16384 && p !in visited
    requires data[p] == 192 + target / 256 && data[p + 1] == target % 256
    ensures var rest := WalkFrom(data, target, visited + {p});
            WalkFrom(data, p, visited) == if rest.Bad? then Bad else Walked(rest.labels, p + 2)
  {
    assert Pointer(data[p], data[p + 1]) == target;
  }

  /** Decompression: a laid-out name, through any chain of pointers, decodes to all its labels, with
      the next offset just past its own part. */
  lemma {:induction false} WalkLayout(data: Text, start: nat, e: Layout, visited: set<int>)
    requires LaidOut(data, start, e) && forall v | v in visited :: v >= EndOf(start, e)
    ensures WalkFrom(data, start, visited) == Walked(LabelsOf(e), EndOf(start, e))
    decreases e
  {
    var p := start + |Wire(e.own)|;
    var seen := WalkWire(data, start, e.own, visited);
    hide WalkFrom, Wire;
    match e
    case Root(own) =>
      WalkEnds(data, p, seen);
      assert own + [] == own;
    case Pointed(own, target, rest) =>
      WalkLayout(data, target, rest, seen + {p});
      WalkPointer(data, p, target, seen);
  }

  ghost predicate AllValid(name: Text) {
    forall l | l in Split(TrimDot(name)) :: ValidLabel(l)
  }

  /** Parsing gives back the encoded name and the offset just past it. */
  ghost predicate ParsesBack(pre: Text, name: Text, post: Text) {
    var w := WalkFrom(pre + Encoded(name) + post, |pre|, {});
    w.Walked? && Join(w.labels) == TrimDot(name) && w.next == |pre| + |Encoded(name)|
  }

  lemma EncodedIsLaidOut(pre: Text, name: Text, post: Text)
    requires AllValid(name)
    ensures LaidOut(pre + Encoded(name) + post, |pre|, Root(Split(TrimDot(name))))
  {
    var data, own := pre + Encoded(name) + post, Split(TrimDot(name));
    assert data[|pre|..|pre| + |Wire(own)|] == Wire(own);
  }

  /** Round trip, wherever the encoded name is embedded: it holds exactly when every label has 1 to 63
      bytes. */
  lemma RoundTrip(pre: Text, name: Text, post: Text)
    ensures ParsesBack(pre, name, post) <==> AllValid(name)
  {
    if AllValid(name) {
      EncodedIsLaidOut(pre, name, post);
      WalkLayout(pre + Encoded(name) + post, |pre|, Root(Split(TrimDot(name))), {});
      JoinSplit(TrimDot(name));
    } else {
      var m := FirstBad(Split(TrimDot(name)));
      BadLabel(pre, name, post, m);
    }
  }

  /** What is read back is the name as it was written, but for a dot at its end, which no name that is read
      back has: with or without it a name is encoded the same. */
  lemma ReadsBack(pre: Text, name: Text, post: Text)
    requires AllValid(name)
    ensures var w := WalkFrom(pre + Encoded(name) + post, |pre|, {});
            && w.Walked? && var n := Join(w.labels);
               && n != [] && n[|n| - 1] != DOT && (name == n || name == n + [DOT])
               && Encoded(n) == Encoded(n + [DOT]) == Encoded(name)
  {
    RoundTrip(pre, name, post);
    var n := TrimDot(name);
    var labels := Split(n);
    JoinSplit(n);
    assert labels[|labels| - 1] in labels;
    LastOfJoin(labels);
    assert (n + [DOT])[..|n|] == n;
    assert name != n ==> name == n + [DOT];
    hide Split, Join, Wire, WalkFrom;
  }

  lemma {:induction false} LastOfJoin(labels: seq<Text>)
    requires labels != [] && labels[|labels| - 1] != []
    ensures var l := labels[|labels| - 1];
            Join(labels) != [] && Join(labels)[|Join(labels)| - 1] == l[|l| - 1]
  {
    if |labels| > 1 { LastOfJoin(labels[1..]); }
  }

  lemma {:induction false} FirstBad(labels: seq<Text>) returns (m: nat)
    requires exists l :: l in labels && !ValidLabel(l)
    ensures m < |labels| && !ValidLabel(labels[m]) && forall l | l in labels[..m] :: ValidLabel(l)
  {
    if !ValidLabel(labels[0]) {
      m := 0;
    } else {
      var l :| l in labels && !ValidLabel(l);
      assert labels == [labels[0]] + labels[1..];
      assert l in labels[1..];
      m := FirstBad(labels[1..]);
      m := m + 1;
      assert labels[..m] == [labels[0]] + labels[1..][..m - 1];
    }
  }

  lemma {:induction false} WireAppend(a: seq<Text>, b: seq<Text>)
    ensures Wire(a + b) == Wire(a) + Wire(b)
  {
    if a == [] {
      assert a + b == b;
    } else {
      assert (a + b)[1..] == a[1..] + b;
      WireAppend(a[1..], b);
    }
  }

  /** The first label of a wrong length spoils the parse: an empty one ends it early, one of 64 to 255
      is no label, and a longer one is cut short, so that the names differ where it is cut. */
  lemma BadLabel(pre: Text, name: Text, post: Text, m: nat)
    requires var labels := Split(TrimDot(name));
             m < |labels| && !ValidLabel(labels[m]) && forall l | l in labels[..m] :: ValidLabel(l)
    ensures !ParsesBack(pre, name, post)
  {
    hide Wire, Split, Join, WalkFrom, TrimDot, Encoded;
    var labels, data := Split(TrimDot(name)), pre + Encoded(name) + post;
    var q := |pre| + |Wire(labels[..m])|;
    BadLabelAt(pre, name, post, m);
    var seen := WalkWire(data, |pre|, labels[..m], {});
    JoinSplit(TrimDot(name));
    assert labels[m] in labels;
    if 1 <= |labels[m]| % 256 < 64 {
      CutParse(data, q, labels, m, seen);
    } else {
      WrongLength(data, q, |labels[m]|, seen);
    }
  }

  lemma WrongLength(data: Text, q: nat, n: nat, seen: set<int>)
    requires q < |data| && data[q] == n % 256 && !(1 <= n % 256 < 64)
    ensures var w := WalkFrom(data, q, seen); w.Bad? || w.next == q + 1 || (w.next == q + 2 && n >= 64)
  {
  }

  lemma BadLabelAt(pre: Text, name: Text, post: Text, m: nat)
    requires m < |Split(TrimDot(name))|
    ensures var labels, data := Split(TrimDot(name)), pre + Encoded(name) + post;
            var q, l := |pre| + |Wire(labels[..m])|, labels[m];
            && q + 1 + |l| < |pre| + |Encoded(name)| <= |data|
            && data[|pre|..q] == Wire(labels[..m])
            && data[q] == |l| % 256 && data[q + 1..q + 1 + |l|] == l
  {
    var labels := Split(TrimDot(name));
    var good, l, after := labels[..m], labels[m], labels[m + 1..];
    assert labels == good + ([l] + after);
    WireAppend(good, [l] + after);
    assert ([l] + after)[1..] == after;
    assert Encoded(name) == Wire(good) + ([|l| % 256] + l + Wire(after)) + [0];
    hide Wire, Split, TrimDot, Encoded;
    InTheMiddle(pre, Wire(good), |l| % 256, l, Wire(after), post);
  }

  lemma InTheMiddle(pre: Text, a: Text, n: Byte, l: Text, b: Text, post: Text)
    ensures var data, q := pre + (a + ([n] + l + b) + [0]) + post, |pre| + |a|;
            data[|pre|..q] == a && data[q] == n && data[q + 1..q + 1 + |l|] == l
  {
  }

  /** Where a length of 256 or more has been cut to a label's, the names differ. */
  lemma CutParse(data: Text, q: nat, labels: seq<Text>, m: nat, seen: set<int>)
    requires m < |labels| && DOT !in labels[m] && |labels[m]| > 63 && 1 <= |labels[m]| % 256 < 64
    requires q + 1 + |labels[m]| <= |data| && data[q] == |labels[m]| % 256
    requires data[q + 1..q + 1 + |labels[m]|] == labels[m]
    ensures var w := Prepend(labels[..m], WalkFrom(data, q, seen));
            w.Walked? ==> Join(w.labels) != Join(labels)
  {
    var l, b := labels[m], |labels[m]| % 256;
    assert data[q + 1..q + 1 + b] == data[q + 1..q + 1 + |l|][..b] == l[..b];
    if q !in seen {
      var rest := WalkFrom(data, q + 1 + b, seen + {q});
      if rest.Walked? {
        CutLabel(labels, m, b, rest.labels);
        assert labels[..m] + ([l[..b]] + rest.labels) == labels[..m] + [l[..b]] + rest.labels;
      }
    }
  }

  /** If label `m` is cut after `b` bytes, then whatever follows the joined name is another one. */
  lemma CutLabel(labels: seq<Text>, m: nat, b: nat, more: seq<Text>)
    requires m < |labels| && b < |labels[m]| && DOT !in labels[m]
    ensures Join(labels[..m] + [labels[m][..b]] + more) != Join(labels)
  {
    var l := labels[m];
    var head := Join(labels[..m] + [l[..b]]);
    // The whole name goes on with a byte of the label, the cut one with a dot or not at all.
    JoinLast(labels[..m], l[..b]);
    JoinLast(labels[..m], l);
    assert Join(labels[..m] + [l]) == head + l[b..];
    if m + 1 < |labels| {
      JoinAppend(labels[..m] + [l], labels[m + 1..]);
      assert labels == labels[..m] + [l] + labels[m + 1..];
    } else {
      assert labels == labels[..m] + [l];
    }
    assert Join(labels)[|head|] == l[b];
    if more == [] {
      assert labels[..m] + [l[..b]] + more == labels[..m] + [l[..b]];
    } else {
      JoinAppend(labels[..m] + [l[..b]], more);
    }
  }

  lemma JoinLast(front: seq<Text>, l: Text)
    ensures Join(front + [l]) == if front == [] then l else Join(front) + [DOT] + l
  {
    if front != [] { JoinAppend(front, [l]); }
  }
}
