/** A remote command's stderr, read to its end but kept bounded: a head, a tail, and a count of the rest. */
module StderrCapture {
  import opened Numbers

  type Byte = bv8

  const HEAD_BYTES: nat := 2048
  const TAIL_BYTES: nat := 2048

  /** What is kept, and how many bytes were read. */
  datatype Kept = Kept(head: seq<Byte>, tail: seq<Byte>, total: nat)

  function LastOf(s: seq<Byte>, n: nat): seq<Byte> {
    s[|s| - Min(n, |s|)..]
  }

  /** What is to be kept of a whole stream, said without reference to how it arrives. */
  function KeptOf(stream: seq<Byte>): Kept {
    var head := stream[..Min(HEAD_BYTES, |stream|)];
    var rest := stream[|head|..];
    Kept(head, LastOf(rest, TAIL_BYTES), |stream|)
  }

  function Omitted(k: Kept): int {
    k.total - |k.head| - |k.tail|
  }

  /** The first 2048 bytes, and of the rest the last 2048. */
  lemma KeptExactly(stream: seq<Byte>)
    ensures var k := KeptOf(stream);
            && k.total == |stream|
            && (if |stream| <= 2048 then k.head == stream && k.tail == []
                else if |stream| <= 4096 then k.head == stream[..2048] && k.tail == stream[2048..]
                else k.head == stream[..2048] && k.tail == stream[|stream| - 2048..])
  {
    var cut := Min(HEAD_BYTES, |stream|);
    KeptAt(stream, cut);
    ThreeParts(stream, cut, |stream| - Min(TAIL_BYTES, |stream| - cut));
  }

  /** A stream is its head, the omitted bytes and its tail; up to both bounds together nothing is omitted. */
  lemma NothingElseIsLost(stream: seq<Byte>)
    ensures var k := KeptOf(stream);
            && 0 <= Omitted(k)
            && stream == k.head + stream[|k.head|..|k.head| + Omitted(k)] + k.tail
            && |k.head| <= 2048 && |k.tail| <= 2048
            && (Omitted(k) > 0 <==> |stream| > 4096)
            && (|stream| <= 4096 ==> k.head + k.tail == stream)
  {
    var cut := Min(HEAD_BYTES, |stream|);
    KeptAt(stream, cut);
    var omitted := |stream| - cut - Min(TAIL_BYTES, |stream| - cut);
    ThreeParts(stream, cut, cut + omitted);
  }

  lemma ThreeParts(s: seq<Byte>, a: nat, b: nat)
    requires a <= b <= |s|
    ensures s[a..][b - a..] == s[b..] && s == s[..a] + s[a..b] + s[b..]
    ensures a == b ==> s == s[..a] + s[b..]
  {
  }

  /** One chunk more: the head fills up first, the rest goes to the tail, and the tail keeps its end. */
  function PushOnto(k: Kept, bytes: seq<Byte>): Kept {
    var into := Min(if |k.head| < HEAD_BYTES then HEAD_BYTES - |k.head| else 0, |bytes|);
    Kept(k.head + bytes[..into], LastOf(k.tail + bytes[into..], TAIL_BYTES), k.total + |bytes|)
  }

  class Capture {
    var head: seq<Byte>
    var tail: seq<Byte>
    var total: nat

    ghost function View(): Kept reads this { Kept(head, tail, total) }

    constructor ()
      ensures View() == KeptOf([])
    {
      head, tail, total := [], [], 0;
    }

    method Push(bytes: seq<Byte>)
      modifies this
      ensures View() == PushOnto(old(View()), bytes)
    {
      total := total + |bytes|;
      var intoHead := Min(if |head| < HEAD_BYTES then HEAD_BYTES - |head| else 0, |bytes|);
      head := head + bytes[..intoHead];
      tail := tail + bytes[intoHead..];
      var excess := if |tail| > TAIL_BYTES then |tail| - TAIL_BYTES else 0;
      tail := tail[excess..];
    }
  }

  /** Whatever the size of the chunk, what was kept of a stream becomes what is kept of the longer one. */
  lemma PushKeeps(stream: seq<Byte>, bytes: seq<Byte>)
    ensures PushOnto(KeptOf(stream), bytes) == KeptOf(stream + bytes)
  {
    var cut := Min(HEAD_BYTES, |stream|);
    var into := Min(HEAD_BYTES - cut, |bytes|);
    var rest, more := stream[cut..], bytes[into..];
    PushedAt(stream, bytes, cut, into);
    LastOfAppend(rest, more, TAIL_BYTES);
    KeptLater(stream, bytes, cut, into);
  }

  lemma KeptLater(stream: seq<Byte>, bytes: seq<Byte>, cut: nat, into: nat)
    requires cut == Min(HEAD_BYTES, |stream|) && into == Min(HEAD_BYTES - cut, |bytes|)
    ensures KeptOf(stream + bytes)
         == Kept(stream[..cut] + bytes[..into],
                 LastOf(stream[cut..] + bytes[into..], TAIL_BYTES),
                 |stream| + |bytes|)
  {
    CutLater(stream, bytes, cut, into);
    KeptNamed(stream + bytes, cut + into, stream[..cut] + bytes[..into], stream[cut..] + bytes[into..]);
  }

  lemma KeptNamed(all: seq<Byte>, cut: nat, head: seq<Byte>, rest: seq<Byte>)
    requires cut == Min(HEAD_BYTES, |all|) && head == all[..cut] && rest == all[cut..]
    ensures KeptOf(all) == Kept(head, LastOf(rest, TAIL_BYTES), |all|)
  {
  }

  lemma KeptAt(stream: seq<Byte>, cut: nat)
    requires cut == Min(HEAD_BYTES, |stream|)
    ensures KeptOf(stream) == Kept(stream[..cut], LastOf(stream[cut..], TAIL_BYTES), |stream|)
  {
  }

  lemma PushedAt(stream: seq<Byte>, bytes: seq<Byte>, cut: nat, into: nat)
    requires cut == Min(HEAD_BYTES, |stream|) && into == Min(HEAD_BYTES - cut, |bytes|)
    ensures PushOnto(KeptOf(stream), bytes)
         == Kept(stream[..cut] + bytes[..into],
                 LastOf(LastOf(stream[cut..], TAIL_BYTES) + bytes[into..], TAIL_BYTES),
                 |stream| + |bytes|)
  {
    KeptAt(stream, cut);
  }

  lemma LastOfAppend(s: seq<Byte>, t: seq<Byte>, n: nat)
    ensures LastOf(LastOf(s, n) + t, n) == LastOf(s + t, n)
  {
  }

  lemma CutLater(stream: seq<Byte>, bytes: seq<Byte>, cut: nat, into: nat)
    requires cut <= |stream| && into <= |bytes| && (cut == |stream| || into == 0)
    ensures (stream + bytes)[..cut + into] == stream[..cut] + bytes[..into]
    ensures (stream + bytes)[cut + into..] == stream[cut..] + bytes[into..]
  {
  }

  /** One read of the pipe: some bytes, its end, or an error. */
  datatype Read = Some(bytes: seq<Byte>) | End | Error

  predicate HasBytes(r: Read) {
    r.Some? && |r.bytes| > 0
  }

  /** Of the pipe's reads the first `n` brought bytes, and with the next it ended, failed or brought none. */
  ghost predicate EndsAfter(pipe: seq<Read>, n: nat) {
    && n <= |pipe|
    && (forall i :: 0 <= i < n ==> pipe[i].Some? && |pipe[i].bytes| > 0)
    && (n < |pipe| ==> pipe[n] == End || pipe[n] == Error || pipe[n] == Some([]))
  }

  function BytesOf(pipe: seq<Read>, n: nat): seq<Byte>
    requires n <= |pipe| && forall i :: 0 <= i < n ==> pipe[i].Some?
  {
    if n == 0 then [] else BytesOf(pipe, n - 1) + pipe[n - 1].bytes
  }

  method PushNext(c: Capture, bytes: seq<Byte>, ghost stream: seq<Byte>)
    requires c.View() == KeptOf(stream)
    modifies c
    ensures c.View() == KeptOf(stream + bytes)
  {
    c.Push(bytes);
    PushKeeps(stream, bytes);
  }

  /**
  Draining the pipe keeps what is to be kept of everything read before the first empty read, end or error: how it
  was cut into reads leaves no trace.
  */
  method Drain(pipe: seq<Read>) returns (c: Capture, ghost n: nat)
    ensures fresh(c) && EndsAfter(pipe, n) && c.View() == KeptOf(BytesOf(pipe, n))
  {
    c := new Capture();
    var i := 0;
    ghost var read: seq<Byte> := [];
    while i < |pipe| && HasBytes(pipe[i])
      invariant i <= |pipe| && fresh(c)
      invariant forall k :: 0 <= k < i ==> HasBytes(pipe[k])
      invariant read == BytesOf(pipe, i)
      invariant c.View() == KeptOf(read)
    {
      PushNext(c, pipe[i].bytes, read);
      read := read + pipe[i].bytes;
      i := i + 1;
    }
    n := i;
  }

  function Concat(chunks: seq<seq<Byte>>): seq<Byte> {
    if chunks == [] then [] else Concat(chunks[..|chunks| - 1]) + chunks[|chunks| - 1]
  }

  function PushAll(chunks: seq<seq<Byte>>): Kept {
    if chunks == [] then KeptOf([]) else PushOnto(PushAll(chunks[..|chunks| - 1]), chunks[|chunks| - 1])
  }

  /** Two ways of cutting one stream into chunks, of any sizes, end in the same capture. */
  lemma CutsDoNotMatter(a: seq<seq<Byte>>, b: seq<seq<Byte>>)
    requires Concat(a) == Concat(b)
    ensures PushAll(a) == PushAll(b) == KeptOf(Concat(a))
  {
    PushAllKeeps(a);
    PushAllKeeps(b);
  }

  lemma {:induction false} PushAllKeeps(chunks: seq<seq<Byte>>)
    ensures PushAll(chunks) == KeptOf(Concat(chunks))
  {
    if chunks != [] {
      PushAllKeeps(chunks[..|chunks| - 1]);
      PushKeeps(Concat(chunks[..|chunks| - 1]), chunks[|chunks| - 1]);
    }
  }
}
