/**
  The argument checks of the autoscaler SDK's `request_resources` and the
  Docker host mount path builder `get_docker_host_mount_location`.

  Python values are modelled by `PyValue`; the checks only look at the
  dynamic type of a value, so numbers that are not integers and other
  objects carry nothing but their kind.
*/
module AutoscalerSdk {
  import opened Options

  /** A Python value as seen by `isinstance`. */
  datatype PyValue =
    | PyNone
    | PyBool(b: bool)
    | PyInt(i: int)
    | PyFloat
    | PyStr(s: string)
    | PyList(items: seq<PyValue>)
    | PyTuple(elements: seq<PyValue>)
    | PyDict(entries: seq<(PyValue, PyValue)>)  // in insertion (iteration) order

  /** `isinstance(v, int)`: in Python `bool` is a subclass of `int`. */
  predicate IsInt(v: PyValue) {
    v.PyInt? || v.PyBool?
  }

  /** A key/value pair that passes `isinstance(key, str) and isinstance(bundle[key], int)`. */
  predicate EntryOk(e: (PyValue, PyValue)) {
    e.0.PyStr? && IsInt(e.1)
  }

  /** What `request_resources` hands on to the autoscaler when the checks pass. */
  datatype ResourceRequest = ResourceRequest(numCpus: PyValue, bundles: PyValue)

  /** Outcome of the call: the forwarded request or the `TypeError` raised. */
  datatype Outcome = Forwarded(request: ResourceRequest) | TypeError(message: string)

  const NumCpusMessage := "num_cpus should be of type int."
  const BundlesMessage := "bundles should be of type List"
  const BundleMessage := "each bundle should be a Dict."
  const EntryMessage := "each bundle key should be str and value as int."

  /** The `for key in bundle.keys()` loop: true when no key raises. */
  function EntriesOk(entries: seq<(PyValue, PyValue)>): (ok: bool)
    ensures ok <==> forall i :: 0 <= i < |entries| ==> EntryOk(entries[i])
  {
    if entries == [] then true
    else EntryOk(entries[0]) && EntriesOk(entries[1..])
  }

  /** The error one bundle raises, if any. */
  function BundleError(bundle: PyValue): Option<string> {
    if !bundle.PyDict? then Some(BundleMessage)
    else if EntriesOk(bundle.entries) then None
    else Some(EntryMessage)
  }

  /** The `for bundle in bundles` loop: the error of the first bundle that raises. */
  function BundlesError(bundles: seq<PyValue>): (r: Option<string>)
    ensures r == None <==> forall i :: 0 <= i < |bundles| ==> BundleError(bundles[i]) == None
    ensures r.Some? ==> exists i :: 0 <= i < |bundles| && r == BundleError(bundles[i])
  {
    if bundles == [] then None
    else if BundleError(bundles[0]).Some? then BundleError(bundles[0])
    else BundlesError(bundles[1..])
  }

  /** Reference description of arguments `request_resources` accepts. */
  ghost predicate WellTyped(numCpus: PyValue, bundles: PyValue) {
    && (numCpus == PyNone || IsInt(numCpus))
    && (bundles == PyNone
        || (bundles.PyList?
            && forall b :: b in bundles.items ==>
                 b.PyDict? && forall e :: e in b.entries ==> EntryOk(e)))
  }

  /** `request_resources(num_cpus, bundles)`; an omitted argument is `PyNone`. */
  function RequestResources(numCpus: PyValue, bundles: PyValue): (r: Outcome)
    ensures r.Forwarded? <==> WellTyped(numCpus, bundles)
    ensures r.Forwarded? ==> r.request == ResourceRequest(numCpus, bundles)
    ensures r.TypeError? ==>
      r.message in {NumCpusMessage, BundlesMessage, BundleMessage, EntryMessage}
  {
    if numCpus != PyNone && !IsInt(numCpus) then TypeError(NumCpusMessage)
    else if bundles != PyNone then
      if bundles.PyList? then
        match BundlesError(bundles.items)
        case Some(m) => TypeError(m)
        case None => Forwarded(ResourceRequest(numCpus, bundles))
      else TypeError(BundlesMessage)
    else Forwarded(ResourceRequest(numCpus, bundles))
  }

  /** A `num_cpus` that is not an int is reported first, whatever `bundles` holds. */
  lemma NumCpusCheckedFirst(numCpus: PyValue, bundles: PyValue)
    requires numCpus != PyNone && !IsInt(numCpus)
    ensures RequestResources(numCpus, bundles) == TypeError(NumCpusMessage)
  {
  }

  /** `bundles` that is not a list is rejected before any bundle is looked at. */
  lemma BundlesMustBeList(numCpus: PyValue, bundles: PyValue)
    requires numCpus == PyNone || IsInt(numCpus)
    requires bundles != PyNone && !bundles.PyList?
    ensures RequestResources(numCpus, bundles) == TypeError(BundlesMessage)
  {
  }

  /** The first failing bundle, in list order, decides the error. */
  lemma {:induction false} FirstFailingBundleDecides(bundles: seq<PyValue>, i: nat)
    requires i < |bundles| && BundleError(bundles[i]).Some?
    requires forall j :: 0 <= j < i ==> BundleError(bundles[j]) == None
    ensures BundlesError(bundles) == BundleError(bundles[i])
  {
    if i > 0 {
      FirstFailingBundleDecides(bundles[1..], i - 1);
    }
  }

  /** The same at the level of the call. */
  lemma FirstFailingBundleRaises(numCpus: PyValue, bundles: seq<PyValue>, i: nat)
    requires numCpus == PyNone || IsInt(numCpus)
    requires i < |bundles| && BundleError(bundles[i]).Some?
    requires forall j :: 0 <= j < i ==> BundleError(bundles[j]) == None
    ensures RequestResources(numCpus, PyList(bundles)) == TypeError(BundleError(bundles[i]).value)
  {
    FirstFailingBundleDecides(bundles, i);
  }

  /** A bundle that is not a dict raises "each bundle should be a Dict."; a dict with a bad key or value raises the key/value message. */
  lemma BundleErrorKinds(b: PyValue)
    ensures !b.PyDict? ==> BundleError(b) == Some(BundleMessage)
    ensures b.PyDict? ==>
      (BundleError(b) == Some(EntryMessage) <==> exists e :: e in b.entries && !EntryOk(e))
  {
  }

  /** The calls the source accepts without looking further: nothing given, an empty list, an empty dict. */
  lemma AcceptedEdgeCases()
    ensures RequestResources(PyNone, PyNone) == Forwarded(ResourceRequest(PyNone, PyNone))
    ensures RequestResources(PyNone, PyList([])).Forwarded?
    ensures RequestResources(PyNone, PyList([PyDict([])])).Forwarded?
    ensures RequestResources(PyBool(true), PyNone).Forwarded?
  {
  }

  /** The calls of the docstring's examples are all accepted. */
  lemma DocstringExamples()
    ensures RequestResources(PyInt(1000), PyNone).Forwarded?
    ensures RequestResources(PyInt(64),
              PyList([PyDict([(PyStr("GPU"), PyInt(1)), (PyStr("CPU"), PyInt(4))])])).Forwarded?
    ensures var cpu := PyDict([(PyStr("CPU"), PyInt(1))]);
            RequestResources(PyNone, PyList([cpu, cpu, cpu])).Forwarded?
  {
  }

  /** Rejected calls, one per message, and the order between them. */
  lemma RejectedExamples()
    ensures RequestResources(PyFloat, PyTuple([])) == TypeError(NumCpusMessage)
    ensures RequestResources(PyInt(2), PyTuple([])) == TypeError(BundlesMessage)
    ensures RequestResources(PyNone, PyDict([])) == TypeError(BundlesMessage)
    ensures RequestResources(PyNone, PyList([PyStr("CPU")])) == TypeError(BundleMessage)
    ensures RequestResources(PyNone, PyList([PyDict([(PyStr("CPU"), PyFloat)]), PyNone]))
            == TypeError(EntryMessage)
    ensures RequestResources(PyNone, PyList([PyNone, PyDict([(PyInt(1), PyInt(1))])]))
            == TypeError(BundleMessage)
  {
    assert !EntryOk((PyStr("CPU"), PyFloat));
    assert !EntriesOk([(PyStr("CPU"), PyFloat)]);
  }

  const DockerMountPrefix := "/tmp/ray_tmp_mount/"

  /** `get_docker_host_mount_location`: the cluster name under the fixed mount prefix. */
  function DockerHostMountLocation(clusterName: string): (path: string)
    ensures |path| == |DockerMountPrefix| + |clusterName|
    ensures path[..|DockerMountPrefix|] == DockerMountPrefix
    ensures path[|DockerMountPrefix|..] == clusterName
  {
    DockerMountPrefix + clusterName
  }

  /** Distinct clusters get distinct mount locations. */
  lemma DockerHostMountLocationInjective(a: string, b: string)
    requires DockerHostMountLocation(a) == DockerHostMountLocation(b)
    ensures a == b
  {
    assert a == DockerHostMountLocation(a)[|DockerMountPrefix|..];
  }
}
