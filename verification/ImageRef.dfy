/** Image references: registry, repository and tag. */
module ImageRef {
  import opened Wrappers
  import opened Text

  const DOCKER_HUB := "registry-1.docker.io"

  datatype Image = Image(registry: string, repository: string, tag: string)

  predicate IsHost(s: string) {
    '.' in s || ':' in s || s == "localhost"
  }

  /** The tag a reference says: what follows its last colon, unless that colon is the first
      character or starts a port. */
  predicate SaysTag(ref: string) {
    var colon := LastIndexOfChar(ref, ':');
    colon.Some? && colon.value > 0 && '/' !in ref[colon.value + 1..]
  }

  /** What the reference names, as one expression. */
  function Parse(ref: string): Image {
    if SaysTag(ref)
    then var colon := LastIndexOfChar(ref, ':').value; Locate(ref[..colon], ref[colon + 1..])
    else Locate(ref, "latest")
  }

  /** The registry and the repository of a path without its tag. */
  function Locate(path: string, tag: string): Image {
    var slash := IndexOfChar(path, '/');
    if slash.Some? && IsHost(path[..slash.value])
    then Image(path[..slash.value], InLibrary(path[..slash.value], path[slash.value + 1..]), tag)
    else Image(DOCKER_HUB, InLibrary(DOCKER_HUB, path), tag)
  }

  function InLibrary(registry: string, repository: string): string {
    if registry == DOCKER_HUB && '/' !in repository then "library/" + repository else repository
  }

  method ParseImageRef(imageRef: string) returns (registry: string, repository: string, tag: string)
    ensures Image(registry, repository, tag) == Parse(imageRef)
  {
    hide IsHost, IndexOfChar, LastIndexOfChar;
    var ref := imageRef;
    registry := DOCKER_HUB;
    tag := "latest";
    var colon := LastIndexOfChar(ref, ':');
    if colon.Some? && colon.value > 0 {
      var candidate := ref[colon.value + 1..];
      if '/' !in candidate {
        tag := candidate;
        ref := ref[..colon.value];
      }
    }
    var slash := IndexOfChar(ref, '/');
    if slash.Some? && IsHost(ref[..slash.value]) {
      registry := ref[..slash.value];
      repository := ref[slash.value + 1..];
    } else {
      repository := ref;
    }
    if registry == DOCKER_HUB && '/' !in repository {
      repository := "library/" + repository;
    }
  }

  /** The reference written out in full. */
  function Written(i: Image): string {
    i.registry + "/" + i.repository + ":" + i.tag
  }

  /** What every result looks like. */
  ghost predicate WellFormed(i: Image) {
    && IsHost(i.registry) && '/' !in i.registry
    && '/' !in i.tag && ':' !in i.tag
    && (i.registry == DOCKER_HUB ==> '/' in i.repository)
  }

  lemma HubIsHost()
    ensures IsHost(DOCKER_HUB) && '/' !in DOCKER_HUB
  {
    assert DOCKER_HUB[10] == '.';
  }

  lemma LibrarySlash(repository: string)
    ensures '/' in "library/" + repository
  {
    assert ("library/" + repository)[7] == '/';
  }

  lemma ResultWellFormed(ref: string)
    ensures WellFormed(Parse(ref))
  {
    hide IsHost, IndexOfChar, LastIndexOfChar;
    HubIsHost();
    forall r { LibrarySlash(r); }
    LatestIsPlain();
  }

  lemma LatestIsPlain()
    ensures '/' !in "latest" && ':' !in "latest"
  {
  }

  /** A tag without slash or colon is read off the end of any path. */
  lemma ReadsTag(path: string, tag: string)
    requires path != "" && '/' !in tag && ':' !in tag
    ensures Parse(path + ":" + tag) == Locate(path, tag)
  {
    hide Locate;
    var s := path + ":" + tag;
    assert s[|path| + 1..] == tag && s[..|path|] == path;
    LastIndexOfCharUnique(s, ':', |path|);
  }

  /** A host component is read off the front of any path. */
  lemma ReadsHost(host: string, rest: string, tag: string)
    requires IsHost(host) && '/' !in host
    ensures Locate(host + "/" + rest, tag) == Image(host, InLibrary(host, rest), tag)
  {
    hide IsHost;
    var path := host + "/" + rest;
    assert path[..|host|] == host && path[|host| + 1..] == rest;
    IndexOfCharUnique(path, '/', |host|);
  }

  /** A well-formed image written out in full reads back as itself, and whatever can be parsed
      becomes well formed: parsing is a normal form that writing and re-parsing keeps. */
  lemma WrittenReadsBack(i: Image)
    requires WellFormed(i)
    ensures Parse(Written(i)) == i
  {
    hide SaysTag, Parse, Locate;
    ReadsTag(i.registry + "/" + i.repository, i.tag);
    ReadsHost(i.registry, i.repository, i.tag);
  }

  lemma ParsingIsNormal(ref: string)
    ensures WellFormed(Parse(ref)) && Parse(Written(Parse(ref))) == Parse(ref)
  {
    ResultWellFormed(ref);
    WrittenReadsBack(Parse(ref));
  }

  /** Saying the default tag changes nothing. */
  lemma DefaultTag(ref: string)
    requires ref != "" && !SaysTag(ref)
    ensures Parse(ref + ":latest") == Parse(ref)
  {
    hide IsHost, Locate;
    LatestIsPlain();
    assert ref + ":latest" == ref + ":" + "latest";
    ReadsTag(ref, "latest");
  }

  /** Saying the default registry changes nothing, when the path does not start with a host. */
  lemma DefaultRegistry(path: string, tag: string)
    requires path != "" && '/' !in tag && ':' !in tag
    requires '/' in path ==> !IsHost(path[..IndexOfChar(path, '/').value])
    ensures Parse(DOCKER_HUB + "/" + path + ":" + tag) == Parse(path + ":" + tag)
  {
    hide IsHost, SaysTag, InLibrary, Parse;
    HubIsHost();
    ReadsTag(path, tag);
    ReadsTag(DOCKER_HUB + "/" + path, tag);
    ReadsHost(DOCKER_HUB, path, tag);
  }

  /** The first component is the registry exactly when it has a dot or a port, or is "localhost". */
  lemma HostExactlyWhen(first: string, rest: string, tag: string)
    requires '/' !in first && '/' !in tag && ':' !in tag
    ensures Parse(first + "/" + rest + ":" + tag).registry == first <==>
            '.' in first || ':' in first || first == "localhost"
    ensures !('.' in first || ':' in first || first == "localhost") ==>
              Parse(first + "/" + rest + ":" + tag) == Image("registry-1.docker.io", first + "/" + rest, tag)
  {
    hide SaysTag, Parse;
    var path := first + "/" + rest;
    ReadsTag(path, tag);
    HubIsHost();
    assert path[..|first|] == first && path[|first|] == '/';
    IndexOfCharUnique(path, '/', |first|);
    assert '/' in path;
  }

  /** "localhost/x:t" and a bare name. */
  lemma ShortForms(name: string)
    requires '/' !in name && ':' !in name && name != ""
    ensures Parse("localhost/x:t") == Image("localhost", "x", "t")
    ensures Parse(name) == Image("registry-1.docker.io", "library/" + name, "latest")
  {
    hide SaysTag, IsHost;
    ReadsTag("localhost" + "/" + "x", "t");
    LocalIsHost();
    ReadsHost("localhost", "x", "t");
    assert "localhost/x:t" == "localhost" + "/" + "x" + ":" + "t";
    NoTag(name);
    NoneIn(name, '/');
  }

  lemma LocalIsHost()
    ensures IsHost("localhost") && '/' !in "localhost" && "localhost" != DOCKER_HUB
  {
    assert |"localhost"| != |DOCKER_HUB|;
  }

  lemma NoTag(name: string)
    requires ':' !in name
    ensures !SaysTag(name)
  {
  }

  lemma NoneIn(s: string, c: char)
    requires c !in s
    ensures IndexOfChar(s, c).None?
  {
  }
}
