/**
 * The manifest file as bytes, and its division into documents
 * (`getAllResourcesBytes`, main.go:114).
 */
module Documents {
  import opened Sequences
  import opened ByteTypes

  /** The separator the file is split on: "\n---". */
  const DocumentSeparator: Bytes := [Newline, Dash, Dash, Dash]

  lemma DocumentSeparatorIsBorderFree()
    ensures BorderFree(DocumentSeparator)
  {
    var sep := DocumentSeparator;
    forall k | 0 < k < |sep| ensures sep[k..] != sep[..|sep| - k] {
      assert sep[k..][0] == Dash != Newline == sep[..|sep| - k][0];
    }
  }

  /**
   * The documents of a file: `bytes.Split(fileBytes, []byte("\n---"))`.
   * There is always at least one, none holds the separator, and joining them
   * with the separator gives back the file byte for byte.
   */
  function SplitDocuments(file: Bytes): (docs: seq<Bytes>)
    ensures |docs| >= 1
    ensures forall i | 0 <= i < |docs| :: !Contains(docs[i], DocumentSeparator)
    ensures Join(docs, DocumentSeparator) == file
  {
    SplitPiecesAreFree(file, DocumentSeparator);
    JoinSplit(file, DocumentSeparator);
    Split(file, DocumentSeparator)
  }

  /**
   * Conversely, a file written as documents free of the separator, joined by
   * it, splits back into exactly those documents.
   */
  lemma SplitOfJoinedDocuments(docs: seq<Bytes>)
    requires |docs| >= 1
    requires forall i | 0 <= i < |docs| :: !Contains(docs[i], DocumentSeparator)
    ensures SplitDocuments(Join(docs, DocumentSeparator)) == docs
  {
    DocumentSeparatorIsBorderFree();
    SplitJoin(docs, DocumentSeparator);
  }

  /** A file in which "\n---" never occurs is one single document. */
  lemma UnseparatedFileIsOneDocument(file: Bytes)
    requires !Contains(file, DocumentSeparator)
    ensures SplitDocuments(file) == [file]
  {
    SplitOfJoinedDocuments([file]);
  }

  /**
   * An example: the file "---\nkind: A\n---\nkind: B" has two documents,
   * "---\nkind: A" (its leading "---" is not a separator) and "\nkind: B".
   */
  lemma LeadingDashesAreNotSplit()
    ensures SplitDocuments(Ascii("---\nkind: A\n---\nkind: B"))
         == [Ascii("---\nkind: A"), Ascii("\nkind: B")]
  {
    var first, second := Ascii("---\nkind: A"), Ascii("\nkind: B");
    assert forall i | 0 <= i < |first| :: first[i] as int == "---\nkind: A"[i] as int;
    assert forall i | 0 <= i < |second| :: second[i] as int == "\nkind: B"[i] as int;
    assert Ascii("---\nkind: A\n---\nkind: B") == Join([first, second], DocumentSeparator);
    forall i | 0 <= i <= |first| ensures !OccursAt(first, DocumentSeparator, i) {
      if i + 4 <= |first| {
        if i == 3 {
          assert first[i..i + 4][1] == first[4] != Dash;
        } else {
          assert first[i..i + 4][0] == first[i] != Newline;
        }
      }
    }
    forall i | 0 <= i <= |second| ensures !OccursAt(second, DocumentSeparator, i) {
      if i + 4 <= |second| {
        assert second[i..i + 4][1] != Dash;
      }
    }
    SplitOfJoinedDocuments([first, second]);
  }

  /**
   * A leading "---" has no newline before it, so it is never cut: the first
   * document keeps it.
   */
  lemma LeadingDashesStay(file: Bytes)
    requires |file| >= 3 && file[0] == Dash && file[1] == Dash && file[2] == Dash
    ensures |SplitDocuments(file)[0]| >= 3 && SplitDocuments(file)[0][..3] == file[..3]
  {
    var m := IndexFrom(file, DocumentSeparator, 0);
    if m >= 0 {
      assert file[m] == file[m..m + 4][0] == Newline;
      assert m >= 3;
      assert file[..m][..3] == file[..3];
    }
  }

  /**
   * The newline that ends a separator line starts the next document, unless
   * the next line is itself "---" (see SeparatorLineAfterSeparator).
   */
  lemma NextDocumentKeepsNewline(a: Bytes, b: Bytes)
    requires !Contains(a, DocumentSeparator)
    requires !(|b| >= 3 && b[0] == Dash && b[1] == Dash && b[2] == Dash)
    ensures var docs := SplitDocuments(a + DocumentSeparator + ([Newline] + b));
      |docs| >= 2 && docs[0] == a && |docs[1]| > 0 && docs[1][0] == Newline
  {
    var sep := DocumentSeparator;
    var t := [Newline] + b;
    var x := a + sep + t;
    DocumentSeparatorIsBorderFree();
    NoOccurrenceBefore(a, sep, t);
    assert OccursAt(x, sep, |a|) by {
      assert x[|a|..|a| + |sep|] == sep;
    }
    var m := IndexFrom(x, sep, 0);
    assert m == |a|;
    assert x[..m] == a && x[m + |sep|..] == t;
    assert SplitDocuments(x) == [a] + Split(t, sep);
    var m' := IndexFrom(t, sep, 0);
    assert !OccursAt(t, sep, 0) by {
      if |t| >= 4 {
        assert t[1] == b[0] && t[2] == b[1] && t[3] == b[2];
        assert t[..4] != sep by {
          if t[1] == Dash && t[2] == Dash {
            assert t[3] != Dash;
            assert t[..4][3] != sep[3];
          } else if t[1] == Dash {
            assert t[..4][2] != sep[2];
          } else {
            assert t[..4][1] != sep[1];
          }
        }
      }
    }
    assert Split(t, sep)[0] == if m' < 0 then t else t[..m'];
  }

  /**
   * When the line after a separator is "---" again, that newline belongs to
   * the next separator and an empty document appears: "a\n---\n---x" splits
   * into "a", "" and "x".
   */
  lemma SeparatorLineAfterSeparator()
    ensures SplitDocuments(Ascii("a\n---\n---x")) == [Ascii("a"), [], Ascii("x")]
  {
    var docs := [Ascii("a"), [], Ascii("x")];
    assert Ascii("a\n---\n---x") == Join(docs, DocumentSeparator);
    SplitOfJoinedDocuments(docs);
  }
}
