/**
  The document-link request of the language service: links from every service,
  their data wrapped so a later resolve can find the service again, projected
  from an embedded file back to its source file, followed by the links that
  mappings flagged `displayWithLink` put over source ranges.
*/
module DocumentLinks {
  import opened Wrappers

  // ---------------------------------------------------------------------------
  // Links

  datatype Position = Position(line: nat, character: nat)

  datatype Range = Range(start: Position, end: Position)

  /**
    A link's `data`: whatever a service stored (`Payload`), or the envelope
    recording the request uri, the service's own data and the service's index.
  */
  datatype LinkData =
    | Payload(value: string)
    | Envelope(uri: string, original: Option<LinkData>, serviceIndex: int)

  datatype DocumentLink = DocumentLink(range: Range, target: Option<string>, tooltip: Option<string>,
                                       data: Option<LinkData>)

  /** A service, identified by reference. */
  type ServiceId = nat

  /** `services.indexOf(service)`: the first position of `service`, or -1 when it is not listed. */
  function IndexOf(services: seq<ServiceId>, service: ServiceId): (r: int)
    ensures -1 <= r < |services|
    ensures r == -1 <==> service !in services
    ensures r >= 0 ==> services[r] == service && service !in services[..r]
  {
    if services == [] then -1
    else if services[0] == service then 0
    else
      var k := IndexOf(services[1..], service);
      if k == -1 then -1
      else
        assert services[..k + 1] == [services[0]] + services[1..][..k];
        k + 1
  }

  // ---------------------------------------------------------------------------
  // The envelope around a service's link data

  /**
    The link with its `data` replaced by the envelope. The envelope holds the
    request uri, the service's index and the service's own data, and unwrapping
    gives back the link exactly as the service made it.
  */
  function Wrap(link: DocumentLink, uri: string, serviceIndex: int): (r: DocumentLink)
    ensures r.data.Some? && r.data.value.Envelope?
    ensures r.data.value.uri == uri && r.data.value.serviceIndex == serviceIndex
    ensures r.data.value.original == link.data
    ensures Unwrap(r) == link
  {
    link.(data := Some(Envelope(uri, link.data, serviceIndex)))
  }

  /** What resolving a link does first: put the service's own data back. */
  function Unwrap(link: DocumentLink): DocumentLink {
    if link.data.Some? && link.data.value.Envelope? then link.(data := link.data.value.original) else link
  }

  /**
    The per-service callback: nothing when cancellation is already requested;
    otherwise the service's links (absent when the service has no provider),
    each with its data wrapped in place, and the same array returned.
    `serviceLinks` is what `provideDocumentLinks` gives.
  */
  method ServiceCallback(uri: string, services: seq<ServiceId>, service: ServiceId, cancellationRequested: bool,
                         serviceLinks: Option<array<DocumentLink>>)
    returns (r: Option<array<DocumentLink>>)
    modifies if serviceLinks.Some? then {serviceLinks.value} else {}
    ensures cancellationRequested ==> r.None?
    ensures cancellationRequested && serviceLinks.Some? ==> unchanged(serviceLinks.value)
    ensures !cancellationRequested ==> r == serviceLinks
    ensures !cancellationRequested && serviceLinks.Some? ==>
      forall k :: 0 <= k < serviceLinks.value.Length ==>
        serviceLinks.value[k] == Wrap(old(serviceLinks.value[k]), uri, IndexOf(services, service))
  {
    if cancellationRequested {
      return None;
    }
    if serviceLinks.Some? {
      var links := serviceLinks.value;
      var i := 0;
      while i < links.Length
        invariant 0 <= i <= links.Length
        invariant forall k :: 0 <= k < i ==> links[k] == Wrap(old(links[k]), uri, IndexOf(services, service))
        invariant forall k :: i <= k < links.Length ==> links[k] == old(links[k])
      {
        links[i] := Wrap(links[i], uri, IndexOf(services, service));
        i := i + 1;
      }
    }
    r := serviceLinks;
  }

  // ---------------------------------------------------------------------------
  // Projection from an embedded file to its source file

  /** A source map, as far as projection needs it: `toSourceRange`. */
  type ToSourceRange = Range -> Option<Range>

  /** The truthiness of a link's target: present and not the empty string. */
  predicate HasTarget(link: DocumentLink) {
    link.target.Some? && link.target.value != ""
  }

  /**
    One link through the projection callback. It is dropped exactly when a map
    is given and its range does not map back. Otherwise it keeps its tooltip and
    data; its range is the mapped range (or the old one without a map) and only
    a truthy target changes, by `transformTarget`.
  */
  function ProjectLink(link: DocumentLink, sourceMap: Option<ToSourceRange>, transformTarget: string -> string)
    : (r: Option<DocumentLink>)
    ensures r.None? <==> sourceMap.Some? && sourceMap.value(link.range).None?
    ensures r.Some? ==>
      r.value.tooltip == link.tooltip && r.value.data == link.data &&
      r.value.range == (if sourceMap.Some? then sourceMap.value(link.range).value else link.range) &&
      r.value.target == (if sourceMap.Some? && HasTarget(link) then Some(transformTarget(link.target.value))
                         else link.target)
  {
    match sourceMap
    case None => Some(link)
    case Some(toSourceRange) =>
      match toSourceRange(link.range)
      case None => None
      case Some(range) =>
        var moved := link.(range := range);
        if HasTarget(moved) then Some(moved.(target := Some(transformTarget(moved.target.value))))
        else Some(moved)
  }

  /** `notEmpty` as a filter: the present values in order. */
  function Present<T>(xs: seq<Option<T>>): (r: seq<T>)
    ensures |r| <= |xs|
    ensures (forall k :: 0 <= k < |xs| ==> xs[k].None?) ==> r == []
  {
    if xs == [] then []
    else (if xs[0].Some? then [xs[0].value] else []) + Present(xs[1..])
  }

  /**
    The projection callback: `links.map(ProjectLink).filter(notEmpty)`. It never
    adds links, and without a map every link comes back unchanged, in order.
  */
  function ProjectLinks(links: seq<DocumentLink>, sourceMap: Option<ToSourceRange>, transformTarget: string -> string)
    : (r: seq<DocumentLink>)
    ensures |r| <= |links|
    ensures sourceMap.None? ==> r == links
  {
    var xs := seq(|links|, k requires 0 <= k < |links| => ProjectLink(links[k], sourceMap, transformTarget));
    if sourceMap.None? then
      PresentAllSome(xs);
      Present(xs)
    else Present(xs)
  }

  lemma {:induction false} PresentAppend<T>(xs: seq<Option<T>>, ys: seq<Option<T>>)
    ensures Present(xs + ys) == Present(xs) + Present(ys)
  {
    if xs != [] {
      assert (xs + ys)[1..] == xs[1..] + ys;
      PresentAppend(xs[1..], ys);
    } else {
      assert xs + ys == ys;
    }
  }

  lemma {:induction false} PresentAllSome<T>(xs: seq<Option<T>>)
    requires forall k :: 0 <= k < |xs| ==> xs[k].Some?
    ensures |Present(xs)| == |xs|
    ensures forall k :: 0 <= k < |xs| ==> Present(xs)[k] == xs[k].value
  {
    if xs != [] {
      PresentAllSome(xs[1..]);
    }
  }

  lemma {:induction false} PresentMembers<T>(xs: seq<Option<T>>)
    ensures forall v :: v in Present(xs) <==> Some(v) in xs
  {
    if xs != [] {
      PresentMembers(xs[1..]);
      assert forall o :: o in xs <==> o == xs[0] || o in xs[1..];
    }
  }

  /**
    Projection works link by link: the links of `a + b` project to those of `a`
    followed by those of `b`, so surviving links keep their relative order.
  */
  lemma ProjectLinksAppend(a: seq<DocumentLink>, b: seq<DocumentLink>, sourceMap: Option<ToSourceRange>,
                           transformTarget: string -> string)
    ensures ProjectLinks(a + b, sourceMap, transformTarget) ==
            ProjectLinks(a, sourceMap, transformTarget) + ProjectLinks(b, sourceMap, transformTarget)
  {
    var xs := seq(|a|, k requires 0 <= k < |a| => ProjectLink(a[k], sourceMap, transformTarget));
    var ys := seq(|b|, k requires 0 <= k < |b| => ProjectLink(b[k], sourceMap, transformTarget));
    assert seq(|a + b|, k requires 0 <= k < |a + b| => ProjectLink((a + b)[k], sourceMap, transformTarget)) == xs + ys;
    PresentAppend(xs, ys);
  }

  /** A link survives projection exactly when it is the projection of some input link. */
  lemma ProjectLinksMembers(links: seq<DocumentLink>, sourceMap: Option<ToSourceRange>, transformTarget: string -> string)
    ensures forall l :: l in ProjectLinks(links, sourceMap, transformTarget) <==>
      exists k :: 0 <= k < |links| && ProjectLink(links[k], sourceMap, transformTarget) == Some(l)
  {
    var xs := seq(|links|, k requires 0 <= k < |links| => ProjectLink(links[k], sourceMap, transformTarget));
    PresentMembers(xs);
    forall l ensures Some(l) in xs <==> exists k :: 0 <= k < |links| && ProjectLink(links[k], sourceMap, transformTarget) == Some(l) {
      if Some(l) in xs {
        var k :| 0 <= k < |xs| && xs[k] == Some(l);
        assert ProjectLink(links[k], sourceMap, transformTarget) == Some(l);
      }
      if exists k :: 0 <= k < |links| && ProjectLink(links[k], sourceMap, transformTarget) == Some(l) {
        var k :| 0 <= k < |links| && ProjectLink(links[k], sourceMap, transformTarget) == Some(l);
        assert xs[k] == Some(l);
      }
    }
  }

  /** `arr.flat()`: the per-file results one after the other. */
  function Flat(arr: seq<seq<DocumentLink>>): (r: seq<DocumentLink>)
    ensures forall k :: 0 <= k < |arr| ==> multiset(arr[k]) <= multiset(r)
  {
    if arr == [] then []
    else
      var rest := Flat(arr[1..]);
      assert forall k :: 1 <= k < |arr| ==> arr[k] == arr[1..][k - 1];
      arr[0] + rest
  }

  /** `arr.flat()` keeps the per-file results in order: those of `a` come before those of `b`. */
  lemma {:induction false} FlatAppend(a: seq<seq<DocumentLink>>, b: seq<seq<DocumentLink>>)
    ensures Flat(a + b) == Flat(a) + Flat(b)
  {
    if a != [] {
      var x := a + b;
      assert x[0] == a[0] && x[1..] == a[1..] + b;
      FlatAppend(a[1..], b);
      assert Flat(x) == a[0] + (Flat(a[1..]) + Flat(b));
    } else {
      assert a + b == b;
    }
  }

  /** A single per-file result is flattened to itself. */
  lemma FlatSingle(x: seq<DocumentLink>)
    ensures Flat([x]) == x
  {
    assert Flat([x][1..]) == [];
  }

  lemma {:induction false} FlatMembers(arr: seq<seq<DocumentLink>>)
    ensures forall l :: l in Flat(arr) <==> exists k :: 0 <= k < |arr| && l in arr[k]
  {
    if arr != [] {
      FlatMembers(arr[1..]);
      forall l ensures l in Flat(arr) <==> exists k :: 0 <= k < |arr| && l in arr[k] {
        if l in Flat(arr[1..]) {
          var k :| 0 <= k < |arr[1..]| && l in arr[1..][k];
          assert l in arr[k + 1];
        }
        if exists k :: 0 <= k < |arr| && l in arr[k] {
          var k :| 0 <= k < |arr| && l in arr[k];
          if k > 0 {
            assert l in arr[1..][k - 1];
          }
        }
      }
    }
  }

  // ---------------------------------------------------------------------------
  // Fictitious links

  /** A snapshot of a file's text, identified by reference. */
  type SnapshotId = nat

  /** One mapping of a source map: its range in the source file and whether it is shown as a link. */
  datatype Mapping = Mapping(sourceStart: int, sourceEnd: int, displayWithLink: bool)

  /** One entry of `getMaps`: the snapshot the map was made from, and its mappings. */
  datatype MapEntry = MapEntry(sourceSnapshot: SnapshotId, mappings: seq<Mapping>)

  datatype VirtualFile = VirtualFile(fileName: string)

  datatype SourceFile = SourceFile(languageId: string, snapshot: SnapshotId, root: Option<VirtualFile>)

  /** A mapping is shown as a link when it is flagged so and covers a non-empty source range. */
  predicate ShowsLink(m: Mapping) {
    m.displayWithLink && m.sourceStart != m.sourceEnd
  }

  /** The link a shown mapping puts over its source range: its target is the request uri. */
  function FictitiousLink(uri: string, positionAt: int -> Position, m: Mapping): DocumentLink {
    DocumentLink(Range(positionAt(m.sourceStart), positionAt(m.sourceEnd)), Some(uri), None, None)
  }

  /** The links of the shown mappings, in mapping order; each targets the request uri. */
  function MappingLinks(uri: string, positionAt: int -> Position, ms: seq<Mapping>): (r: seq<DocumentLink>)
    ensures |r| <= |ms|
    ensures forall l :: l in r ==> l.target == Some(uri)
  {
    if ms == [] then []
    else
      var m := ms[|ms| - 1];
      MappingLinks(uri, positionAt, ms[..|ms| - 1]) + (if ShowsLink(m) then [FictitiousLink(uri, positionAt, m)] else [])
  }

  /** The links of the maps made from `snapshot`, in map order. */
  function EntryLinks(uri: string, positionAt: int -> Position, snapshot: SnapshotId, es: seq<MapEntry>)
    : (r: seq<DocumentLink>)
    ensures forall l :: l in r ==> l.target == Some(uri)
    ensures (forall k :: 0 <= k < |es| ==> es[k].sourceSnapshot != snapshot) ==> r == []
  {
    if es == [] then []
    else
      var e := es[|es| - 1];
      EntryLinks(uri, positionAt, snapshot, es[..|es| - 1])
        + (if e.sourceSnapshot == snapshot then MappingLinks(uri, positionAt, e.mappings) else [])
  }

  /** The links of the embedded files, in file order. */
  function FileLinks(uri: string, positionAt: int -> Position, snapshot: SnapshotId,
                     getMaps: VirtualFile -> seq<MapEntry>, files: seq<VirtualFile>): (r: seq<DocumentLink>)
    ensures forall l :: l in r ==> l.target == Some(uri)
  {
    if files == [] then []
    else
      FileLinks(uri, positionAt, snapshot, getMaps, files[..|files| - 1])
        + EntryLinks(uri, positionAt, snapshot, getMaps(files[|files| - 1]))
  }

  /**
    The fictitious links of a request: none without a source file or without a
    root; otherwise those of the embedded files `embeddedFiles` lists for the root.
  */
  function FictitiousLinks(uri: string, sourceFile: Option<SourceFile>, embeddedFiles: VirtualFile -> seq<VirtualFile>,
                           getMaps: VirtualFile -> seq<MapEntry>, positionAt: int -> Position): (r: seq<DocumentLink>)
    ensures sourceFile.None? || sourceFile.value.root.None? ==> r == []
  {
    if sourceFile.Some? && sourceFile.value.root.Some? then
      FileLinks(uri, positionAt, sourceFile.value.snapshot, getMaps, embeddedFiles(sourceFile.value.root.value))
    else []
  }

  /** `getFictitiousLinks`: loops over the embedded files and their maps, pushing one link per shown mapping. */
  method GetFictitiousLinks(uri: string, sourceFile: Option<SourceFile>, embeddedFiles: VirtualFile -> seq<VirtualFile>,
                            getMaps: VirtualFile -> seq<MapEntry>, positionAt: int -> Position)
    returns (result: seq<DocumentLink>)
    ensures result == FictitiousLinks(uri, sourceFile, embeddedFiles, getMaps, positionAt)
  {
    result := [];
    if sourceFile.Some? && sourceFile.value.root.Some? {
      var snapshot := sourceFile.value.snapshot;
      var files := embeddedFiles(sourceFile.value.root.value);
      var i := 0;
      while i < |files|
        invariant 0 <= i <= |files|
        invariant result == FileLinks(uri, positionAt, snapshot, getMaps, files[..i])
      {
        result := AppendEntryLinks(result, uri, positionAt, snapshot, getMaps(files[i]));
        assert files[..i + 1][..i] == files[..i];
        i := i + 1;
      }
      assert files[..i] == files;
    }
  }

  /** The middle loop of `getFictitiousLinks`: the links of one file's maps pushed onto `links`. */
  method AppendEntryLinks(links: seq<DocumentLink>, uri: string, positionAt: int -> Position, snapshot: SnapshotId,
                          entries: seq<MapEntry>)
    returns (result: seq<DocumentLink>)
    ensures result == links + EntryLinks(uri, positionAt, snapshot, entries)
  {
    result := links;
    var j := 0;
    while j < |entries|
      invariant 0 <= j <= |entries|
      invariant result == links + EntryLinks(uri, positionAt, snapshot, entries[..j])
    {
      var entry := entries[j];
      if entry.sourceSnapshot == snapshot {
        result := AppendMappingLinks(result, uri, positionAt, entry.mappings);
      }
      assert entries[..j + 1][..j] == entries[..j];
      j := j + 1;
    }
    assert entries[..j] == entries;
  }

  /** The innermost loop of `getFictitiousLinks`: the links of one map's mappings pushed onto `links`. */
  method AppendMappingLinks(links: seq<DocumentLink>, uri: string, positionAt: int -> Position, mappings: seq<Mapping>)
    returns (result: seq<DocumentLink>)
    ensures result == links + MappingLinks(uri, positionAt, mappings)
  {
    result := links;
    var k := 0;
    while k < |mappings|
      invariant 0 <= k <= |mappings|
      invariant result == links + MappingLinks(uri, positionAt, mappings[..k])
    {
      var mapped := mappings[k];
      if mapped.displayWithLink && mapped.sourceStart != mapped.sourceEnd {
        result := result + [FictitiousLink(uri, positionAt, mapped)];
      }
      assert mappings[..k + 1][..k] == mappings[..k];
      k := k + 1;
    }
    assert mappings[..k] == mappings;
  }

  /** A mapping that a map made from `snapshot`, found for one of `files`, shows as a link. */
  ghost predicate Shown(getMaps: VirtualFile -> seq<MapEntry>, snapshot: SnapshotId, files: seq<VirtualFile>, m: Mapping) {
    exists f, e :: f in files && e in getMaps(f) && e.sourceSnapshot == snapshot && m in e.mappings && ShowsLink(m)
  }

  lemma {:induction false} MappingLinksMembers(uri: string, positionAt: int -> Position, ms: seq<Mapping>)
    ensures forall l :: l in MappingLinks(uri, positionAt, ms) <==>
      exists m :: m in ms && ShowsLink(m) && l == FictitiousLink(uri, positionAt, m)
  {
    if ms != [] {
      var init := ms[..|ms| - 1];
      MappingLinksMembers(uri, positionAt, init);
      assert ms == init + [ms[|ms| - 1]];
      assert forall m :: m in ms <==> m in init || m == ms[|ms| - 1];
    }
  }

  lemma {:induction false} EntryLinksMembers(uri: string, positionAt: int -> Position, snapshot: SnapshotId,
                                             es: seq<MapEntry>)
    ensures forall l :: l in EntryLinks(uri, positionAt, snapshot, es) <==>
      exists e, m :: e in es && e.sourceSnapshot == snapshot && m in e.mappings && ShowsLink(m) &&
                     l == FictitiousLink(uri, positionAt, m)
  {
    if es != [] {
      var init := es[..|es| - 1];
      var last := es[|es| - 1];
      EntryLinksMembers(uri, positionAt, snapshot, init);
      MappingLinksMembers(uri, positionAt, last.mappings);
      assert es == init + [last];
      assert forall e :: e in es <==> e in init || e == last;
    }
  }

  lemma {:induction false} FileLinksMembers(uri: string, positionAt: int -> Position, snapshot: SnapshotId,
                                            getMaps: VirtualFile -> seq<MapEntry>, files: seq<VirtualFile>)
    ensures forall l :: l in FileLinks(uri, positionAt, snapshot, getMaps, files) <==>
      exists m :: Shown(getMaps, snapshot, files, m) && l == FictitiousLink(uri, positionAt, m)
  {
    if files != [] {
      var init := files[..|files| - 1];
      var last := files[|files| - 1];
      FileLinksMembers(uri, positionAt, snapshot, getMaps, init);
      EntryLinksMembers(uri, positionAt, snapshot, getMaps(last));
      assert files == init + [last];
      assert forall f :: f in files <==> f in init || f == last;
      forall m ensures Shown(getMaps, snapshot, files, m) <==>
        Shown(getMaps, snapshot, init, m) ||
        exists e :: e in getMaps(last) && e.sourceSnapshot == snapshot && m in e.mappings && ShowsLink(m)
      {
        if Shown(getMaps, snapshot, files, m) {
          var f, e :| f in files && e in getMaps(f) && e.sourceSnapshot == snapshot && m in e.mappings && ShowsLink(m);
          if f in init {
            assert Shown(getMaps, snapshot, init, m);
          }
        }
        if exists e :: e in getMaps(last) && e.sourceSnapshot == snapshot && m in e.mappings && ShowsLink(m) {
          var e :| e in getMaps(last) && e.sourceSnapshot == snapshot && m in e.mappings && ShowsLink(m);
          assert last in files;
        }
      }
    }
  }

  /**
    Soundness and completeness: the fictitious links are exactly the links of
    the mappings that are flagged `displayWithLink`, cover a non-empty source
    range and belong to a map made from the source file's current snapshot.
  */
  lemma FictitiousLinksMembers(uri: string, sourceFile: SourceFile, root: VirtualFile,
                               embeddedFiles: VirtualFile -> seq<VirtualFile>,
                               getMaps: VirtualFile -> seq<MapEntry>, positionAt: int -> Position)
    requires sourceFile.root == Some(root)
    ensures forall l :: l in FictitiousLinks(uri, Some(sourceFile), embeddedFiles, getMaps, positionAt) <==>
      exists m :: Shown(getMaps, sourceFile.snapshot, embeddedFiles(root), m) && l == FictitiousLink(uri, positionAt, m)
  {
    FileLinksMembers(uri, positionAt, sourceFile.snapshot, getMaps, embeddedFiles(root));
  }

  /** Maps made from another snapshot of the source file contribute no link. */
  lemma StaleMapsContributeNothing(uri: string, positionAt: int -> Position, snapshot: SnapshotId,
                                   getMaps: VirtualFile -> seq<MapEntry>, files: seq<VirtualFile>)
    requires forall f, e :: f in files && e in getMaps(f) ==> e.sourceSnapshot != snapshot
    ensures forall l :: l !in FileLinks(uri, positionAt, snapshot, getMaps, files)
  {
    FileLinksMembers(uri, positionAt, snapshot, getMaps, files);
  }

  lemma {:induction false} MappingLinksAppend(uri: string, positionAt: int -> Position, a: seq<Mapping>, b: seq<Mapping>)
    ensures MappingLinks(uri, positionAt, a + b) == MappingLinks(uri, positionAt, a) + MappingLinks(uri, positionAt, b)
  {
    if b != [] {
      var init := b[..|b| - 1];
      assert (a + b)[..|a + b| - 1] == a + init;
      MappingLinksAppend(uri, positionAt, a, init);
    } else {
      assert a + b == a;
    }
  }

  /** Links follow the maps' order: those of the maps in `a` come before those of the maps in `b`. */
  lemma {:induction false} EntryLinksAppend(uri: string, positionAt: int -> Position, snapshot: SnapshotId,
                                            a: seq<MapEntry>, b: seq<MapEntry>)
    ensures EntryLinks(uri, positionAt, snapshot, a + b) ==
            EntryLinks(uri, positionAt, snapshot, a) + EntryLinks(uri, positionAt, snapshot, b)
  {
    if b != [] {
      var init := b[..|b| - 1];
      assert (a + b)[..|a + b| - 1] == a + init;
      EntryLinksAppend(uri, positionAt, snapshot, a, init);
    } else {
      assert a + b == a;
    }
  }

  /**
    Links follow the embedded files' order: those of the files in `a` come
    before those of the files in `b`.
  */
  lemma {:induction false} FileLinksAppend(uri: string, positionAt: int -> Position, snapshot: SnapshotId,
                                           getMaps: VirtualFile -> seq<MapEntry>, a: seq<VirtualFile>, b: seq<VirtualFile>)
    ensures FileLinks(uri, positionAt, snapshot, getMaps, a + b) ==
            FileLinks(uri, positionAt, snapshot, getMaps, a) + FileLinks(uri, positionAt, snapshot, getMaps, b)
  {
    if b != [] {
      var init := b[..|b| - 1];
      assert (a + b)[..|a + b| - 1] == a + init;
      FileLinksAppend(uri, positionAt, snapshot, getMaps, a, init);
    } else {
      assert a + b == a;
    }
  }

  /** When every mapping is shown, there is one link per mapping, in the mappings' order. */
  lemma {:induction false} MappingLinksShown(uri: string, positionAt: int -> Position, ms: seq<Mapping>)
    requires forall k :: 0 <= k < |ms| ==> ShowsLink(ms[k])
    ensures |MappingLinks(uri, positionAt, ms)| == |ms|
    ensures forall k :: 0 <= k < |ms| ==> MappingLinks(uri, positionAt, ms)[k] == FictitiousLink(uri, positionAt, ms[k])
  {
    if ms != [] {
      MappingLinksShown(uri, positionAt, ms[..|ms| - 1]);
    }
  }

  // ---------------------------------------------------------------------------
  // The request

  /**
    The links of a request: the service-derived links (none when the worker
    gives nothing) followed by the fictitious links, without deduplication.
  */
  method ProvideDocumentLinks(uri: string, pluginLinks: Option<seq<DocumentLink>>, sourceFile: Option<SourceFile>,
                              embeddedFiles: VirtualFile -> seq<VirtualFile>, getMaps: VirtualFile -> seq<MapEntry>,
                              positionAt: int -> Position)
    returns (r: seq<DocumentLink>)
    ensures var fictitious := FictitiousLinks(uri, sourceFile, embeddedFiles, getMaps, positionAt);
      r == pluginLinks.GetOr([]) + fictitious
  {
    var fictitious := GetFictitiousLinks(uri, sourceFile, embeddedFiles, getMaps, positionAt);
    r := pluginLinks.GetOr([]) + fictitious;
  }
}
