/**
 * The whole injection (`runInjector`, main.go:37-69) on in-memory bytes: build
 * the sidecar, split the file, pick the Deployment, decode it, append the
 * credentials volume and the sidecar, encode it, and append the other
 * documents after it.
 */
module Injector {
  import opened Wrappers
  import opened Sequences
  import opened ByteTypes
  import opened Documents
  import opened Kube
  import opened Extract
  import opened Sidecar
  import opened Output

  /**
   * The library code the program calls and this model does not look into:
   * kind reading, quantity parsing, the YAML-or-JSON Deployment decoder and
   * the YAML serializer (whose error main.go ignores, so it is total here).
   */
  datatype Library = Library(
    reader: KindReader,
    parseQuantity: QuantityParser,
    decode: Bytes -> Option<Deployment>,
    encode: Deployment -> Bytes)

  /** The Secret-backed credentials volume (main.go:52-59). */
  const CredentialsVolume: Volume := Volume(CredentialsVolumeName, SecretVolume(CredentialsVolumeName))

  /** The Deployment with the credentials volume and the sidecar appended to its pod spec. */
  function WithSidecar(d: Deployment, sidecar: Container): Deployment
  {
    var spec := d.template.spec;
    d.(template := d.template.(spec := spec.(volumes := spec.volumes + [CredentialsVolume],
                                              containers := spec.containers + [sidecar])))
  }

  /**
   * Exactly one volume and one container are added, at the ends; existing
   * entries keep their content and order, and no other field changes.
   */
  lemma WithSidecarAppendsOnly(d: Deployment, sidecar: Container)
    ensures var r := WithSidecar(d, sidecar);
      && |r.template.spec.volumes| == |d.template.spec.volumes| + 1
      && r.template.spec.volumes[..|d.template.spec.volumes|] == d.template.spec.volumes
      && r.template.spec.volumes[|d.template.spec.volumes|]
         == Volume("cloudsql-proxy-credentials", SecretVolume("cloudsql-proxy-credentials"))
      && |r.template.spec.containers| == |d.template.spec.containers| + 1
      && r.template.spec.containers[..|d.template.spec.containers|] == d.template.spec.containers
      && r.template.spec.containers[|d.template.spec.containers|] == sidecar
      && r.template.spec.rest == d.template.spec.rest
      && r.template.rest == d.template.rest
      && r.(template := d.template) == d
  {
    var r := WithSidecar(d, sidecar);
    assert r.template.spec.volumes[..|d.template.spec.volumes|] == d.template.spec.volumes;
    assert r.template.spec.containers[..|d.template.spec.containers|] == d.template.spec.containers;
  }

  /**
   * Names are not checked: a pod that already has a volume called
   * "cloudsql-proxy-credentials" ends up with two of them.
   */
  lemma VolumeNameCollisionNotDetected(d: Deployment, sidecar: Container, i: int)
    requires 0 <= i < |d.template.spec.volumes|
    requires d.template.spec.volumes[i].name == CredentialsVolumeName
    ensures var vs := WithSidecar(d, sidecar).template.spec.volumes;
      exists j, k | 0 <= j < k < |vs| :: vs[j].name == vs[k].name == "cloudsql-proxy-credentials"
  {
    var vs := WithSidecar(d, sidecar).template.spec.volumes;
    assert vs[i].name == vs[|vs| - 1].name;
  }

  /** The output bytes `runInjector` writes, or the error it panics with. */
  function Injected(config: Config, lib: Library, file: Bytes): Result<Bytes, Error>
  {
    var sidecar :- CloudContainer(config, lib.parseQuantity);
    var extracted :- Extraction(lib.reader, SplitDocuments(file));
    var deployment :- lib.decode(extracted.deployment).ToResult(DecodeError);
    Success(lib.encode(WithSidecar(deployment, sidecar)) + Reassembled(extracted.others))
  }

  /**
   * `runInjector` step by step: the pod spec is updated in place on the
   * decoded value and the output is written into a buffer.
   */
  method RunInjector(config: Config, lib: Library, file: Bytes) returns (r: Result<Bytes, Error>)
    ensures r == Injected(config, lib, file)
  {
    var container := CloudContainer(config, lib.parseQuantity);
    if container.Failure? {
      return Failure(container.error);
    }
    var sidecar := container.value;
    var docs := SplitDocuments(file);
    var extracted := ExtractDeployment(lib.reader, docs);
    if extracted.Failure? {
      return Failure(extracted.error);
    }
    var decoded := lib.decode(extracted.value.deployment);
    if decoded.None? {
      return Failure(DecodeError);
    }
    var deploy := decoded.value;
    ghost var original := deploy;
    deploy := deploy.(template := deploy.template.(spec := deploy.template.spec.(
      volumes := deploy.template.spec.volumes + [CredentialsVolume])));
    deploy := deploy.(template := deploy.template.(spec := deploy.template.spec.(
      containers := deploy.template.spec.containers + [sidecar])));
    assert deploy == WithSidecar(original, sidecar);
    var outputBytes := new Buffer();
    outputBytes.Write(lib.encode(deploy));
    assert outputBytes.contents == lib.encode(deploy);
    PutItBack(extracted.value.others, outputBytes);
    return Success(outputBytes.contents);
  }

  /**
   * A bad quantity is reported before the file is looked at: whatever the
   * file, the run fails with that quantity's error.
   */
  lemma ConfigurationErrorsComeFirst(config: Config, lib: Library, file: Bytes)
    requires CloudContainer(config, lib.parseQuantity).Failure?
    ensures Injected(config, lib, file) == Failure(CloudContainer(config, lib.parseQuantity).error)
    ensures Injected(config, lib, file).error.QuantityParseError?
  {
  }

  /**
   * A run succeeds exactly when the sidecar builds, the extraction succeeds
   * and the selected Deployment decodes; the output is then the encoded,
   * mutated Deployment followed by "\n---\n" + d for every non-Deployment
   * document d of the file, in the file's order.
   */
  lemma InjectedOutput(config: Config, lib: Library, file: Bytes)
    ensures var docs := SplitDocuments(file);
      Injected(config, lib, file).Success?
      <==> && CloudContainer(config, lib.parseQuantity).Success?
           && lib.reader.AllReadable(docs)
           && |LastDeployment(lib.reader, docs)| > 0
           && lib.decode(LastDeployment(lib.reader, docs)).Some?
    ensures var docs := SplitDocuments(file);
      Injected(config, lib, file).Success? ==>
        Injected(config, lib, file).value
        == lib.encode(WithSidecar(lib.decode(LastDeployment(lib.reader, docs)).value,
                                  CloudContainer(config, lib.parseQuantity).value))
           + Reassembled(Others(lib.reader, docs))
  {
    ExtractionSucceeds(lib.reader, SplitDocuments(file));
  }

  /**
   * Pass-through: for a file made of documents joined by "\n---", every
   * readable non-Deployment document reaches the output byte for byte, in
   * its original order, each after its own "\n---\n", behind the encoded
   * last Deployment.
   */
  lemma OtherDocumentsPassThrough(config: Config, lib: Library, docs: seq<Bytes>)
    requires |docs| >= 1
    requires forall i | 0 <= i < |docs| :: !Contains(docs[i], DocumentSeparator)
    requires Injected(config, lib, Join(docs, DocumentSeparator)).Success?
    ensures SplitDocuments(Join(docs, DocumentSeparator)) == docs
    ensures lib.decode(LastDeployment(lib.reader, docs)).Some?
    ensures Injected(config, lib, Join(docs, DocumentSeparator)).value
         == lib.encode(WithSidecar(lib.decode(LastDeployment(lib.reader, docs)).value,
                                   CloudContainer(config, lib.parseQuantity).value))
            + Reassembled(Others(lib.reader, docs))
  {
    SplitOfJoinedDocuments(docs);
    InjectedOutput(config, lib, Join(docs, DocumentSeparator));
  }

  /** The output of a run whose three steps succeeded. */
  lemma InjectedFromSteps(config: Config, lib: Library, file: Bytes, sidecar: Container, e: Extracted, d: Deployment)
    requires CloudContainer(config, lib.parseQuantity) == Success(sidecar)
    requires Extraction(lib.reader, SplitDocuments(file)) == Success(e)
    requires lib.decode(e.deployment) == Some(d)
    ensures Injected(config, lib, file) == Success(lib.encode(WithSidecar(d, sidecar)) + Reassembled(e.others))
  {
  }

  /** A Deployment followed by another document classifies as the test expects. */
  lemma ClassifyPair(reader: KindReader, deployment: Bytes, other: Bytes)
    requires |deployment| > 0
    requires reader.IsDeployment(deployment) && reader.IsOther(other)
    ensures Extraction(reader, [deployment, other]) == Success(Extracted(deployment, [other]))
  {
    var docs := [deployment, other];
    assert FirstUnreadable(reader, docs) == None by {
      assert reader.AllReadable(docs);
      FirstUnreadableNone(reader, docs);
    }
    assert LastDeployment(reader, docs) == deployment by {
      assert !reader.IsDeployment(other);
      LastDeploymentWins(reader, docs, 0);
    }
    assert Others(reader, docs) == [other] by {
      assert [deployment] + [other] == docs;
      OthersIsFilter(reader, [deployment], [other]);
      OthersIsFilter(reader, [other], []);
    }
  }

  /**
   * The scenario of the repository's test: a Deployment followed by a
   * Service.  The output is the encoded Deployment with the sidecar, then
   * "\n---\n", then the Service document unchanged.
   */
  lemma DeploymentAndService(config: Config, lib: Library, deployment: Bytes, service: Bytes, d: Deployment)
    requires !Contains(deployment, DocumentSeparator) && !Contains(service, DocumentSeparator)
    requires |deployment| > 0
    requires lib.reader.IsDeployment(deployment) && lib.reader.IsOther(service)
    requires lib.decode(deployment) == Some(d)
    requires CloudContainer(config, lib.parseQuantity).Success?
    ensures Injected(config, lib, deployment + DocumentSeparator + service)
         == Success(lib.encode(WithSidecar(d, CloudContainer(config, lib.parseQuantity).value))
                    + OutputSeparator + service)
  {
    var docs := [deployment, service];
    var file := deployment + DocumentSeparator + service;
    assert SplitDocuments(file) == docs by {
      assert Join(docs, DocumentSeparator) == file;
      SplitOfJoinedDocuments(docs);
    }
    assert Extraction(lib.reader, SplitDocuments(file)) == Success(Extracted(deployment, [service])) by {
      ClassifyPair(lib.reader, deployment, service);
    }
    assert Reassembled([service]) == OutputSeparator + service by {
      ReassembledCons(service, []);
      assert [service] + [] == [service];
    }
    var sidecar := CloudContainer(config, lib.parseQuantity).value;
    InjectedFromSteps(config, lib, file, sidecar, Extracted(deployment, [service]), d);
    var encoded := lib.encode(WithSidecar(d, sidecar));
    assert encoded + (OutputSeparator + service) == encoded + OutputSeparator + service;
  }
}
