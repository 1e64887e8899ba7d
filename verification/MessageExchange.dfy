/**
 From values to values through the code: a builder per message, the sends, the receives
 in whatever pieces the socket hands over, and a reader per message.
 */
module MessageExchange {
  import opened Disk
  import opened Options
  import opened Sequencing
  import opened MessageCodec
  import opened MessageStream

  // ------------------------------------------------------------------ building

  lemma {:induction false} EncodedGrows(xs: seq<Value>, i: nat, n: nat)
    requires i <= n <= |xs|
    ensures |Encoded(Wire(), xs, i)| <= |Encoded(Wire(), xs, n)|
    decreases n
  {
    if i < n { EncodedGrows(xs, i, n - 1); }
  }

  lemma NextValue(l: Letter, i: nat)
    requires Fits(l) && i < |l.values|
    ensures Valid(l.values[i])
    ensures Encoded(Wire(), l.values, i + 1) == Encoded(Wire(), l.values, i) + Encode(l.values[i])
    ensures |Encoded(Wire(), l.values, i)| + |Encode(l.values[i])| < WORD
  {
    EncodedGrows(l.values, i + 1, |l.values|);
  }

  /** The write for the value's type. */
  method WriteValue(b: Builder, x: Value)
    requires b.Ok() && Valid(x) && b.size + |Encode(x)| < WORD
    modifies b`content, b`size, b.content
    ensures b.Ok() && b.Contents() == old(b.Contents()) + Encode(x)
    ensures b.content == old(b.content) || fresh(b.content)
  {
    match x
    case Int(w, signed, v) => b.WriteInt(w, signed, v);
    case Text(s) => b.WriteText(s);
    case Raw(bytes) => b.WriteBytes(bytes);
  }

  /** A builder, one write per value, and the message it gives. */
  method Build(l: Letter, capacity: nat) returns (m: Message)
    requires Fits(l) && capacity < WORD
    ensures m == Built(l)
  {
    var b := new Builder(l.header, capacity);
    for i := 0 to |l.values|
      invariant fresh(b) && fresh(b.content) && b.Ok() && b.header == l.header
      invariant b.Contents() == Encoded(Wire(), l.values, i)
    {
      NextValue(l, i);
      assert b.size == |b.Contents()|;
      WriteValue(b, l.values[i]);
    }
    m := b.ToMessage();
  }

  // ------------------------------------------------------------------ on the connection

  ghost predicate AllSendable(ms: seq<Message>) {
    forall i :: 0 <= i < |ms| ==> Sendable(ms[i])
  }

  lemma FramedNext(before: Bytes, ms: seq<Message>, i: nat)
    requires AllSendable(ms) && i < |ms|
    ensures before + Framed(ms, i) + Frame(ms[i]) == before + Framed(ms, i + 1)
  {
  }

  /** Messages written one after the other. */
  method WriteAll(c: Connection, ms: seq<Message>) returns (ok: bool)
    requires AllSendable(ms)
    modifies c`open, c`outgoing, c`calls
    ensures old(c.open) && Takes(c.sends) ==> ok
    ensures ok ==> c.open == old(c.open) && c.outgoing == old(c.outgoing) + Framed(ms, |ms|)
  {
    ok := true;
    for i := 0 to |ms|
      invariant ok && c.open == old(c.open) && c.outgoing == old(c.outgoing) + Framed(ms, i)
    {
      ok := c.WriteMessage(ms[i]);
      if !ok { return; }
      FramedNext(old(c.outgoing), ms, i);
    }
  }

  lemma {:induction false} ParsesBefore(c: Bytes, i: nat, n: nat)
    requires i <= n && ParseMany(c, i).None?
    ensures ParseMany(c, n).None?
    decreases n
  {
    if i < n { ParsesBefore(c, i, n - 1); }
  }

  /** n messages read one after the other: the parse of the stream, however it is cut. */
  method ReadAll(c: Connection, n: nat) returns (ok: bool, ms: seq<Message>)
    modifies c`open, c`incoming, c`calls
    ensures ok ==> ParseMany(old(c.incoming), n) == Some((ms, c.incoming))
    ensures old(c.open) && Healthy(c.recvs) ==> (ok <==> ParseMany(old(c.incoming), n).Some?)
  {
    ok, ms := true, [];
    for i := 0 to n
      invariant ok && c.open == old(c.open) && ParseMany(old(c.incoming), i) == Some((ms, c.incoming))
    {
      ghost var stream := c.incoming;
      var r := c.ReadMessage();
      if r.None? {
        if Parse(stream).None? { ParsesBefore(old(c.incoming), i + 1, n); }
        return false, ms;
      }
      ms := ms + [r.value];
    }
  }

  // ------------------------------------------------------------------ reading

  /** The read for the kind. */
  method ReadValue(r: Reader, k: Kind) returns (o: Outcome)
    requires r.Ok() && KindOk(k)
    modifies r
    ensures r.Ok() && (o, r.seekPos) == ReadKind(r.content, old(r.seekPos), k)
  {
    match k
    case IntOf(w, signed) => o := r.GetInt(w, signed);
    case TextOf => o := r.GetText();
    case BytesOf(n) => o := r.GetBytes(n);
  }

  lemma {:induction false} ReadsBefore(c: Bytes, ks: seq<Kind>, i: nat, n: nat)
    requires i <= n <= |ks| && ReadFirst(Wire(), c, ks, i).None?
    ensures ReadFirst(Wire(), c, ks, n).None?
    decreases n
  {
    if i < n { ReadsBefore(c, ks, i, n - 1); }
  }

  lemma NextRead(c: Bytes, ks: seq<Kind>, i: nat, xs: seq<Value>, p: nat, o: Outcome, q: nat)
    requires i < |ks| && KindOk(ks[i]) && p <= |c| < WORD && ReadFirst(Wire(), c, ks, i) == Some((xs, p))
    requires (o, q) == ReadKind(c, p, ks[i])
    ensures ReadFirst(Wire(), c, ks, i + 1) == if o.Read? then Some((xs + [o.x], q)) else None
  {
    assert Wire().read(c, p, ks[i]) == TryRead(c, p, ks[i]);
  }

  /** A reader and one read per kind; nothing as soon as one read throws. */
  method Values(m: Message, ks: seq<Kind>) returns (r: Option<seq<Value>>)
    requires |m.content| < WORD && forall i :: 0 <= i < |ks| ==> KindOk(ks[i])
    ensures r.Some? <==> ReadFirst(Wire(), m.content, ks, |ks|).Some?
    ensures r.Some? ==> r.value == ReadFirst(Wire(), m.content, ks, |ks|).value.0
  {
    var reader := new Reader(m);
    var xs: seq<Value> := [];
    for i := 0 to |ks|
      invariant fresh(reader) && reader.Ok() && reader.content == m.content
      invariant ReadFirst(Wire(), m.content, ks, i) == Some((xs, reader.seekPos))
    {
      ghost var p := reader.seekPos;
      var o := ReadValue(reader, ks[i]);
      NextRead(m.content, ks, i, xs, p, o, reader.seekPos);
      if !o.Read? {
        ReadsBefore(m.content, ks, i + 1, |ks|);
        return None;
      }
      xs := xs + [o.x];
    }
    r := Some(xs);
  }

  // ------------------------------------------------------------------ the whole way

  function Kinds(xs: seq<Value>): seq<Kind> {
    seq(|xs|, i requires 0 <= i < |xs| => KindOf(xs[i]))
  }

  ghost predicate AllBuilt(ls: seq<Letter>, ms: seq<Message>) {
    |ms| == |ls| && forall i :: 0 <= i < |ls| ==> Fits(ls[i]) && ms[i] == Built(ls[i])
  }

  method BuildAll(ls: seq<Letter>, capacity: nat) returns (ms: seq<Message>)
    requires capacity < WORD && forall i :: 0 <= i < |ls| ==> Fits(ls[i])
    ensures AllBuilt(ls, ms)
  {
    ms := [];
    for i := 0 to |ls|
      invariant |ms| == i && forall j :: 0 <= j < i ==> ms[j] == Built(ls[j])
    {
      var m := Build(ls[i], capacity);
      ms := ms + [m];
    }
  }

  lemma BuiltSendable(ls: seq<Letter>, ms: seq<Message>)
    requires AllBuilt(ls, ms)
    ensures AllSendable(ms)
  {
    forall i | 0 <= i < |ms| ensures Sendable(ms[i]) { var m := Built(ls[i]); }
  }

  lemma SentParses(ms: seq<Message>, n: nat, sent: Bytes)
    requires AllSendable(ms) && n == |ms| && sent == [] + Framed(ms, n)
    ensures ParseMany(sent, n) == Some((ms, []))
  {
    FramedParse(ms, n, []);
    assert sent == Framed(ms, n) + [];
    assert ms[..n] == ms;
  }

  lemma BuiltReads(l: Letter)
    requires Fits(l)
    ensures forall j :: 0 <= j < |l.values| ==> KindOk(Kinds(l.values)[j])
    ensures ReadFirst(Wire(), Built(l).content, Kinds(l.values), |l.values|)
      == Some((l.values, |Built(l).content|))
  {
    assert KindsOf(Wire(), l.values, Kinds(l.values));
    Whole(Built(l).content);
    ValuesReadBack(l.values, Kinds(l.values), Built(l).content);
  }

  /** Letters built, sent on one connection, received on another and read with the matching
      reads: whatever arrives is what was sent, for every cut the socket makes, and all of it
      arrives when the sends take everything and the receives keep delivering. */
  method Exchange(ls: seq<Letter>, capacity: nat, recvs: Socket, sends: Socket) returns (r: Option<seq<Letter>>)
    requires capacity < WORD && forall i :: 0 <= i < |ls| ==> Fits(ls[i])
    ensures r.Some? ==> r.value == ls
    ensures Takes(sends) && Healthy(recvs) ==> r.Some?
  {
    var ms := BuildAll(ls, capacity);
    BuiltSendable(ls, ms);
    var sender := new Connection(recvs, sends, []);
    var sent := WriteAll(sender, ms);
    if !sent { return None; }
    SentParses(ms, |ls|, sender.outgoing);
    var receiver := new Connection(recvs, sends, sender.outgoing);
    var ok, got := ReadAll(receiver, |ls|);
    if !ok { return None; }
    r := ReadLetters(ls, got);
  }

  /** The matching reads on a message, and on every message. */
  method ReadLetter(l: Letter, m: Message) returns (r: Option<Letter>)
    requires Fits(l) && m == Built(l)
    ensures r == Some(l)
  {
    BuiltReads(l);
    var xs := Values(m, Kinds(l.values));
    r := match xs case None => None case Some(values) => Some(Letter(m.header, values));
  }

  method ReadLetters(ls: seq<Letter>, ms: seq<Message>) returns (r: Option<seq<Letter>>)
    requires AllBuilt(ls, ms)
    ensures r == Some(ls)
  {
    var out: seq<Letter> := [];
    for i := 0 to |ls|
      invariant out == ls[..i]
    {
      var l := ReadLetter(ls[i], ms[i]);
      if l.None? { return None; }
      out := out + [l.value];
    }
    assert ls[..|ls|] == ls;
    r := Some(out);
  }
}
