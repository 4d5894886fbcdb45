/**
 * Classification of the documents by their `kind` and selection of the
 * Deployment (`extractDeploymentBytes`, main.go:117-143).
 */
module Extract {
  import opened Wrappers
  import opened ByteTypes
  import opened Kube

  const DeploymentKind: string := "Deployment"

  /**
   * The two library calls that read a document's kind: `k8syaml.ToJSON`
   * and `DefaultMetaFactory.Interpret` (which yields the `kind` field).
   * Either may fail; their internals are not part of this model.
   */
  datatype KindReader = KindReader(toJSON: Bytes -> Option<Bytes>, interpret: Bytes -> Option<string>) {

    /** The kind of one document, or the error of the first call that failed. */
    function KindOf(doc: Bytes): Result<string, Error>
    {
      match toJSON(doc)
      case None => Failure(YamlToJsonError(doc))
      case Some(json) =>
        match interpret(json)
        case None => Failure(InterpretError(json))
        case Some(kind) => Success(kind)
    }

    predicate IsDeployment(doc: Bytes)
    {
      KindOf(doc) == Success(DeploymentKind)
    }

    /** A readable document that is not a Deployment: it is passed through. */
    predicate IsOther(doc: Bytes)
    {
      KindOf(doc).Success? && KindOf(doc).value != DeploymentKind
    }

    predicate AllReadable(docs: seq<Bytes>)
    {
      forall i | 0 <= i < |docs| :: KindOf(docs[i]).Success?
    }
  }

  /** The two results of a successful extraction. */
  datatype Extracted = Extracted(deployment: Bytes, others: seq<Bytes>)

  /** The error of the first document whose kind cannot be read, if any. */
  function FirstUnreadable(reader: KindReader, docs: seq<Bytes>): Option<Error>
    decreases |docs|
  {
    if docs == [] then None
    else if reader.KindOf(docs[0]).Failure? then Some(reader.KindOf(docs[0]).error)
    else FirstUnreadable(reader, docs[1..])
  }

  /** The documents that are passed through, in their original order. */
  function Others(reader: KindReader, docs: seq<Bytes>): seq<Bytes>
    decreases |docs|
  {
    if docs == [] then []
    else
      var last := docs[|docs| - 1];
      Others(reader, docs[..|docs| - 1]) + (if reader.IsOther(last) then [last] else [])
  }

  /** The last Deployment document, or the empty (nil) slice if there is none. */
  function LastDeployment(reader: KindReader, docs: seq<Bytes>): Bytes
    decreases |docs|
  {
    if docs == [] then []
    else if reader.IsDeployment(docs[|docs| - 1]) then docs[|docs| - 1]
    else LastDeployment(reader, docs[..|docs| - 1])
  }

  /** What `extractDeploymentBytes` returns, or the error it panics with. */
  function Extraction(reader: KindReader, docs: seq<Bytes>): Result<Extracted, Error>
  {
    match FirstUnreadable(reader, docs)
    case Some(e) => Failure(e)
    case None =>
      var deployment := LastDeployment(reader, docs);
      if |deployment| <= 0 then Failure(DeploymentNotFound)
      else Success(Extracted(deployment, Others(reader, docs)))
  }

  /**
   * The loop of `extractDeploymentBytes`: each Deployment overwrites the
   * selection, every other document is appended, and the first unreadable
   * document stops everything.
   */
  method ExtractDeployment(reader: KindReader, docs: seq<Bytes>) returns (r: Result<Extracted, Error>)
    ensures r == Extraction(reader, docs)
  {
    var deployment: Bytes := [];
    var others: seq<Bytes> := [];
    var i := 0;
    while i < |docs|
      invariant 0 <= i <= |docs|
      invariant FirstUnreadable(reader, docs) == FirstUnreadable(reader, docs[i..])
      invariant deployment == LastDeployment(reader, docs[..i])
      invariant others == Others(reader, docs[..i])
    {
      var doc := docs[i];
      assert docs[..i + 1][..i] == docs[..i] && docs[i..][1..] == docs[i + 1..];
      var json := reader.toJSON(doc);
      if json.None? {
        return Failure(YamlToJsonError(doc));
      }
      var kind := reader.interpret(json.value);
      if kind.None? {
        return Failure(InterpretError(json.value));
      }
      if kind.value == DeploymentKind {
        deployment := doc;
      } else {
        others := others + [doc];
      }
      i := i + 1;
    }
    assert docs[..i] == docs;
    if |deployment| <= 0 {
      return Failure(DeploymentNotFound);
    }
    return Success(Extracted(deployment, others));
  }

  /**
   * Others is a filter: it distributes over concatenation and keeps a single
   * document exactly when the document is readable and not a Deployment.
   */
  lemma {:induction false} OthersIsFilter(reader: KindReader, a: seq<Bytes>, b: seq<Bytes>)
    ensures Others(reader, a + b) == Others(reader, a) + Others(reader, b)
    ensures |a| == 1 ==> Others(reader, a) == (if reader.IsOther(a[0]) then a else [])
    decreases |b|
  {
    if b != [] {
      var b' := b[..|b| - 1];
      assert (a + b)[..|a + b| - 1] == a + b';
      OthersIsFilter(reader, a, b');
    } else {
      assert a + b == a;
    }
    if |a| == 1 {
      assert a[..0] == [];
    }
  }

  /** A document is passed through exactly when it is in the file and is not a Deployment. */
  lemma {:induction false} OthersMembers(reader: KindReader, docs: seq<Bytes>, x: Bytes)
    ensures x in Others(reader, docs) <==> x in docs && reader.IsOther(x)
    decreases |docs|
  {
    if docs != [] {
      var init := docs[..|docs| - 1];
      OthersMembers(reader, init, x);
      assert docs == init + [docs[|docs| - 1]];
    }
  }

  /** Every Deployment document, the last one included, is absent from the pass-through list. */
  lemma DeploymentsAreNotPassedThrough(reader: KindReader, docs: seq<Bytes>, i: int)
    requires 0 <= i < |docs| && reader.IsDeployment(docs[i])
    ensures docs[i] !in Others(reader, docs)
  {
    OthersMembers(reader, docs, docs[i]);
  }

  /** Last wins: the selection is the Deployment that no later Deployment follows. */
  lemma {:induction false} LastDeploymentWins(reader: KindReader, docs: seq<Bytes>, i: int)
    requires 0 <= i < |docs| && reader.IsDeployment(docs[i])
    requires forall j | i < j < |docs| :: !reader.IsDeployment(docs[j])
    ensures LastDeployment(reader, docs) == docs[i]
    decreases |docs|
  {
    if i < |docs| - 1 {
      var init := docs[..|docs| - 1];
      assert init[i] == docs[i];
      LastDeploymentWins(reader, init, i);
    }
  }

  /** Without a Deployment document nothing is selected. */
  lemma {:induction false} NoDeploymentSelectsNothing(reader: KindReader, docs: seq<Bytes>)
    requires forall j | 0 <= j < |docs| :: !reader.IsDeployment(docs[j])
    ensures LastDeployment(reader, docs) == []
    decreases |docs|
  {
    if docs != [] {
      NoDeploymentSelectsNothing(reader, docs[..|docs| - 1]);
    }
  }

  /** A selected (non-empty) document is a Deployment that no later Deployment follows. */
  lemma {:induction false} SelectedIsLastDeployment(reader: KindReader, docs: seq<Bytes>)
    requires |LastDeployment(reader, docs)| > 0
    ensures exists i | 0 <= i < |docs| ::
      && docs[i] == LastDeployment(reader, docs)
      && reader.IsDeployment(docs[i])
      && forall j | i < j < |docs| :: !reader.IsDeployment(docs[j])
    decreases |docs|
  {
    var n := |docs| - 1;
    if !reader.IsDeployment(docs[n]) {
      var init := docs[..n];
      SelectedIsLastDeployment(reader, init);
      var i :| 0 <= i < |init| && init[i] == LastDeployment(reader, init) && reader.IsDeployment(init[i])
        && forall j | i < j < |init| :: !reader.IsDeployment(init[j]);
      assert docs[i] == init[i];
      assert forall j | i < j < |docs| :: !reader.IsDeployment(docs[j]) by {
        forall j | i < j < |docs| ensures !reader.IsDeployment(docs[j]) {
          if j < n {
            assert docs[j] == init[j];
          }
        }
      }
    }
  }

  /** No error is reported exactly when every document's kind can be read. */
  lemma {:induction false} FirstUnreadableNone(reader: KindReader, docs: seq<Bytes>)
    ensures FirstUnreadable(reader, docs) == None <==> reader.AllReadable(docs)
    decreases |docs|
  {
    if docs != [] {
      FirstUnreadableNone(reader, docs[1..]);
      assert forall i | 1 <= i < |docs| :: docs[i] == docs[1..][i - 1];
    }
  }

  /** The reported error is that of the earliest unreadable document. */
  lemma {:induction false} FirstUnreadableIsEarliest(reader: KindReader, docs: seq<Bytes>, i: int)
    requires 0 <= i < |docs| && reader.KindOf(docs[i]).Failure?
    requires forall j | 0 <= j < i :: reader.KindOf(docs[j]).Success?
    ensures FirstUnreadable(reader, docs) == Some(reader.KindOf(docs[i]).error)
    decreases i
  {
    if i > 0 {
      assert forall j | 0 <= j < i - 1 :: docs[1..][j] == docs[j + 1];
      FirstUnreadableIsEarliest(reader, docs[1..], i - 1);
    }
  }

  /**
   * One document whose kind cannot be read makes the whole extraction fail
   * with that document's error (the first such document's), returning nothing.
   */
  lemma UnreadableDocumentFails(reader: KindReader, docs: seq<Bytes>, i: int)
    requires 0 <= i < |docs| && reader.KindOf(docs[i]).Failure?
    requires forall j | 0 <= j < i :: reader.KindOf(docs[j]).Success?
    ensures Extraction(reader, docs) == Failure(reader.KindOf(docs[i]).error)
    ensures Extraction(reader, docs).error.YamlToJsonError? || Extraction(reader, docs).error.InterpretError?
  {
    FirstUnreadableIsEarliest(reader, docs, i);
  }

  /**
   * Readable documents whose last Deployment is empty fail with "could not
   * find deployment resource": the `len <= 0` test cannot tell an empty last
   * Deployment from none at all (NoDeploymentSelectsNothing).
   */
  lemma MissingDeploymentFails(reader: KindReader, docs: seq<Bytes>)
    requires reader.AllReadable(docs)
    requires |LastDeployment(reader, docs)| == 0
    ensures Extraction(reader, docs) == Failure(DeploymentNotFound)
  {
    FirstUnreadableNone(reader, docs);
  }

  /**
   * Extraction succeeds exactly when every kind is readable and a non-empty
   * Deployment is selected; the selected document is then the last
   * Deployment, and the others are exactly the non-Deployment documents.
   */
  lemma ExtractionSucceeds(reader: KindReader, docs: seq<Bytes>)
    ensures Extraction(reader, docs).Success?
        <==> reader.AllReadable(docs) && |LastDeployment(reader, docs)| > 0
    ensures Extraction(reader, docs).Success? ==>
      && Extraction(reader, docs).value.others == Others(reader, docs)
      && exists i | 0 <= i < |docs| ::
        && Extraction(reader, docs).value.deployment == docs[i]
        && reader.IsDeployment(docs[i])
        && forall j | i < j < |docs| :: !reader.IsDeployment(docs[j])
  {
    FirstUnreadableNone(reader, docs);
    if Extraction(reader, docs).Success? {
      SelectedIsLastDeployment(reader, docs);
    }
  }
}
