/**
 * The output buffer and the reassembly of the pass-through documents
 * (`putItBack`, main.go:177-183).
 */
module Output {
  import opened Sequences
  import opened ByteTypes
  import opened Documents

  /** The separator `putItBack` writes before each document: "\n---\n". */
  const OutputSeparator: Bytes := DocumentSeparator + [Newline]

  /** An in-memory byte buffer (`bytes.Buffer`), which only ever grows. */
  class Buffer {
    var contents: Bytes

    constructor ()
      ensures contents == []
    {
      contents := [];
    }

    /** Appends `b`; writing to a bytes.Buffer cannot fail. */
    method Write(b: Bytes)
      modifies this
      ensures contents == old(contents) + b
    {
      contents := contents + b;
    }
  }

  /** What `putItBack` appends: "\n---\n" and the document, for each document in order. */
  function Reassembled(docs: seq<Bytes>): Bytes
    decreases |docs|
  {
    if docs == [] then []
    else Reassembled(docs[..|docs| - 1]) + OutputSeparator + docs[|docs| - 1]
  }

  /** Writes every pass-through document, each preceded by "\n---\n". */
  method PutItBack(others: seq<Bytes>, w: Buffer)
    modifies w
    ensures w.contents == old(w.contents) + Reassembled(others)
  {
    var i := 0;
    while i < |others|
      invariant 0 <= i <= |others|
      invariant w.contents == old(w.contents) + Reassembled(others[..i])
    {
      assert others[..i + 1][..i] == others[..i];
      w.Write(OutputSeparator);
      w.Write(others[i]);
      i := i + 1;
    }
    assert others[..i] == others;
  }

  /** Reassembly distributes over concatenation of the document list. */
  lemma {:induction false} ReassembledAppend(a: seq<Bytes>, b: seq<Bytes>)
    ensures Reassembled(a + b) == Reassembled(a) + Reassembled(b)
    decreases |b|
  {
    if b == [] {
      assert a + b == a;
    } else {
      var b' := b[..|b| - 1];
      assert (a + b)[..|a + b| - 1] == a + b';
      ReassembledAppend(a, b');
    }
  }

  /** Reassembling a list that starts with `d` writes the separator and `d` first. */
  lemma ReassembledCons(d: Bytes, rest: seq<Bytes>)
    ensures Reassembled([d] + rest) == OutputSeparator + d + Reassembled(rest)
  {
    ReassembledAppend([d], rest);
    assert [d][..0] == [];
  }

  /**
   * The head written first, followed by the reassembled documents, is the
   * join of all of them with "\n---\n"; nothing is appended for an empty list.
   */
  lemma {:induction false} ReassembledIsJoin(head: Bytes, docs: seq<Bytes>)
    ensures head + Reassembled(docs) == Join([head] + docs, OutputSeparator)
    ensures docs == [] ==> Reassembled(docs) == []
    decreases |docs|
  {
    if docs == [] {
      assert head + [] == head;
    } else {
      var d, rest := docs[0], docs[1..];
      assert docs == [d] + rest;
      ReassembledCons(d, rest);
      ReassembledIsJoin(d, rest);
      assert ([head] + docs)[1..] == [d] + rest;
    }
  }

  /** Each document with the newline that ends the "---" line put in front of it. */
  function Newlined(docs: seq<Bytes>): seq<Bytes>
  {
    seq(|docs|, i requires 0 <= i < |docs| => [Newline] + docs[i])
  }

  /**
   * Measured against the separator the file was split on, "\n---", every
   * pass-through document comes back with one extra leading newline.
   */
  lemma {:induction false} ReassembledAddsNewline(head: Bytes, docs: seq<Bytes>)
    ensures head + Reassembled(docs) == Join([head] + Newlined(docs), DocumentSeparator)
    decreases |docs|
  {
    if docs == [] {
      assert head + [] == head;
      assert [head] + Newlined(docs) == [head];
    } else {
      var d, rest := docs[0], docs[1..];
      var nd := [Newline] + d;
      var tail := Reassembled(rest);
      assert docs == [d] + rest;
      ReassembledCons(d, rest);
      assert Reassembled(docs) == OutputSeparator + d + tail;
      ReassembledAddsNewline(nd, rest);
      assert nd + tail == Join([nd] + Newlined(rest), DocumentSeparator);
      assert Newlined(docs) == [nd] + Newlined(rest);
      assert ([head] + Newlined(docs))[1..] == Newlined(docs);
      assert Join([head] + Newlined(docs), DocumentSeparator)
          == head + DocumentSeparator + (nd + tail);
      assert OutputSeparator + d + tail == DocumentSeparator + (nd + tail);
    }
  }
}
