/** Image references: parsing into registry host, repository path and tag, and the form the parser settles on. */
module ImageRef {
  import opened Text

  datatype Ref = Ref(host: string, repository: string, tag: string)

  function FirstOf(s: string, c: char): (i: nat)
    requires c in s
    ensures i < |s| && s[i] == c
  {
    if s[0] == c then 0 else assert s == [s[0]] + s[1..]; FirstOf(s[1..], c) + 1
  }

  function LastOf(s: string, c: char): (i: nat)
    requires c in s
    ensures i < |s| && s[i] == c
  {
    var k := |s| - 1;
    if s[k] == c then k else assert s == s[..k] + [s[k]]; LastOf(s[..k], c)
  }

  lemma {:induction false} FirstAt(s: string, c: char, i: nat)
    requires i < |s| && s[i] == c && c !in s[..i]
    ensures FirstOf(s, c) == i
  {
    if i > 0 {
      assert s[..i][0] == s[0];
      assert s[1..][..i - 1] == s[..i][1..];
      FirstAt(s[1..], c, i - 1);
    }
  }

  lemma {:induction false} LastAt(s: string, c: char, i: nat)
    requires i < |s| && s[i] == c && c !in s[i + 1..]
    ensures LastOf(s, c) == i
  {
    var k := |s| - 1;
    if i < k {
      assert s[i + 1..][k - i - 1] == s[k];
      assert s[..k][i + 1..] == s[i + 1..][..k - i - 1];
      LastAt(s[..k], c, i);
    }
  }

  lemma {:induction false} NoneBeforeFirst(s: string, c: char)
    requires c in s
    ensures c !in s[..FirstOf(s, c)]
  {
    if s[0] != c {
      assert s == [s[0]] + s[1..];
      NoneBeforeFirst(s[1..], c);
      assert s[..FirstOf(s, c)] == [s[0]] + s[1..][..FirstOf(s[1..], c)];
    }
  }

  lemma {:induction false} NoneAfterLast(s: string, c: char)
    requires c in s
    ensures c !in s[LastOf(s, c) + 1..]
  {
    var k := |s| - 1;
    if s[k] != c {
      assert s == s[..k] + [s[k]];
      NoneAfterLast(s[..k], c);
      assert s[LastOf(s, c) + 1..] == s[..k][LastOf(s[..k], c) + 1..] + [s[k]];
    }
  }

  /** `name, tag = s.rsplit(":", 1)`, or the whole text and `latest` when there is no colon. */
  function NameAndTag(s: string): (string, string) {
    if ':' in s then (s[..LastOf(s, ':')], s[LastOf(s, ':') + 1..]) else (s, "latest")
  }

  predicate HasDomain(host: string) {
    '.' in host || Contains(Lower(host), "localhost")
  }

  /** A first component with a dot, a port or `localhost` names a registry. */
  predicate NamesRegistry(host: string) {
    HasDomain(host) || ':' in host
  }

  function WithoutDigest(s: string): string {
    if '@' in s then s[..FirstOf(s, '@')] else s
  }

  function ParseImageRef(imageRef: string): Ref {
    var ref := WithoutDigest(imageRef);
    if '/' !in ref then
      var (name, tag) := NameAndTag(ref);
      Ref("docker.io", "library/" + name, tag)
    else
      var registryHost := ref[..FirstOf(ref, '/')];
      var (repository, tag) := NameAndTag(ref[FirstOf(ref, '/') + 1..]);
      if NamesRegistry(registryHost) then Ref(registryHost, repository, tag)
      else Ref("docker.io", registryHost + "/" + repository, tag)
  }

  function Print(r: Ref): string {
    r.host + "/" + (r.repository + ":" + r.tag)
  }

  predicate IsRegistry(host: string) {
    '/' !in host && '@' !in host && NamesRegistry(host)
  }

  /** What survives printing and parsing. */
  predicate Canonical(r: Ref) {
    IsRegistry(r.host) && '@' !in r.repository && '@' !in r.tag && ':' !in r.tag
  }

  lemma NameAndTagOfPair(name: string, tag: string)
    requires ':' !in tag
    ensures NameAndTag(name + ":" + tag) == (name, tag)
  {
    var s := name + ":" + tag;
    assert s[|name|] == ':' && s[..|name|] == name && s[|name| + 1..] == tag;
    LastAt(s, ':', |name|);
  }

  lemma NameAndTagInside(s: string)
    ensures ':' !in NameAndTag(s).1
    ensures '@' !in s ==> '@' !in NameAndTag(s).0 && '@' !in NameAndTag(s).1
  {
    if ':' in s {
      NoneAfterLast(s, ':');
    }
  }

  /** The last branch: the first part names a registry. */
  lemma ParseWithRegistry(host: string, rest: string)
    requires IsRegistry(host) && '@' !in rest
    ensures ParseImageRef(host + ['/'] + rest) == Ref(host, NameAndTag(rest).0, NameAndTag(rest).1)
  {
    var s := host + ['/'] + rest;
    assert s[|host|] == '/' && s[..|host|] == host && s[|host| + 1..] == rest;
    FirstAt(s, '/', |host|);
  }

  lemma DockerNamesRegistry()
    ensures IsRegistry("docker.io")
  {
    assert "docker.io"[6] == '.';
  }

  /** Whatever the text, the parsed reference is canonical. */
  lemma ParsedIsCanonical(x: string)
    ensures Canonical(ParseImageRef(x))
  {
    var ref := WithoutDigest(x);
    if '@' in x {
      NoneBeforeFirst(x, '@');
    }
    if '/' !in ref {
      NameAndTagInside(ref);
      DockerNamesRegistry();
    } else {
      var host, rest := ref[..FirstOf(ref, '/')], ref[FirstOf(ref, '/') + 1..];
      NoneBeforeFirst(ref, '/');
      PartsAreCanonical(host, rest);
    }
  }

  lemma PartsAreCanonical(host: string, rest: string)
    requires '/' !in host && '@' !in host && '@' !in rest
    ensures var (repository, tag) := NameAndTag(rest);
            Canonical(if NamesRegistry(host) then Ref(host, repository, tag)
                      else Ref("docker.io", host + "/" + repository, tag))
  {
    NameAndTagInside(rest);
    DockerNamesRegistry();
  }

  /** A reference comes back from its printed form exactly when it is canonical. */
  lemma ParseUndoesPrint(r: Ref)
    ensures ParseImageRef(Print(r)) == r <==> Canonical(r)
  {
    ParsedIsCanonical(Print(r));
    if Canonical(r) {
      ParseWithRegistry(r.host, r.repository + ":" + r.tag);
      NameAndTagOfPair(r.repository, r.tag);
    }
  }

  /** Canonicalising twice is canonicalising once. */
  lemma CanonicalFormIsStable(x: string)
    ensures ParseImageRef(Print(ParseImageRef(x))) == ParseImageRef(x)
  {
    ParsedIsCanonical(x);
    ParseUndoesPrint(ParseImageRef(x));
  }

  /** Two texts mean the same image exactly when their canonical forms are the same text. */
  lemma SameImageIsSameForm(x: string, y: string)
    ensures ParseImageRef(x) == ParseImageRef(y) <==> Print(ParseImageRef(x)) == Print(ParseImageRef(y))
  {
    CanonicalFormIsStable(x);
    CanonicalFormIsStable(y);
  }

  /** A digest does not change the result. */
  lemma DigestIsDropped(x: string, digest: string)
    requires '@' !in x
    ensures ParseImageRef(x + "@" + digest) == ParseImageRef(x)
  {
    var s := x + "@" + digest;
    assert s[|x|] == '@' && s[..|x|] == x;
    FirstAt(s, '@', |x|);
  }

  /** A one-part name is an official image of Docker Hub. */
  lemma OfficialNamesExpand(x: string)
    requires '/' !in x && '@' !in x
    ensures ParseImageRef(x) == ParseImageRef("docker.io" + ['/'] + ("library/" + x))
  {
    DockerNamesRegistry();
    RegistryFirst("docker.io", "library/" , x);
  }

  /** Naming the registry explicitly in front of a colon-free directory. */
  lemma RegistryFirst(host: string, front: string, x: string)
    requires IsRegistry(host) && '@' !in front && ':' !in front && '@' !in x
    ensures ParseImageRef(host + ['/'] + (front + x)) == Ref(host, front + NameAndTag(x).0, NameAndTag(x).1)
  {
    ParseWithRegistry(host, front + x);
    NameAndTagAfter(front, x);
  }

  /** A name whose first part is not a registry belongs to Docker Hub. */
  lemma HubNamesExpand(x: string)
    requires '@' !in x && '/' in x && !NamesRegistry(x[..FirstOf(x, '/')])
    ensures ParseImageRef(x) == ParseImageRef("docker.io" + ['/'] + x)
  {
    var owner, rest := x[..FirstOf(x, '/')], x[FirstOf(x, '/') + 1..];
    assert x == (owner + "/") + rest;
    DockerNamesRegistry();
    RegistryFirst("docker.io", owner + "/", rest);
    assert (owner + "/") + NameAndTag(rest).0 == owner + "/" + NameAndTag(rest).0;
  }

  lemma NameAndTagAfter(front: string, s: string)
    requires ':' !in front
    ensures NameAndTag(front + s) == (front + NameAndTag(s).0, NameAndTag(s).1)
  {
    if ':' in s {
      var i := LastOf(s, ':');
      NoneAfterLast(s, ':');
      assert s == s[..i] + ":" + s[i + 1..];
      assert front + s == (front + s[..i]) + ":" + s[i + 1..];
      NameAndTagOfPair(front + s[..i], s[i + 1..]);
    }
  }

  // ----- the manifest address

  const MIDDLE := "/manifests/"

  /** What follows `/v2/` in the pull address. */
  function PullPath(repository: string, tag: string): string {
    repository + MIDDLE + tag
  }

  function ManifestUrl(r: Ref): string {
    "https://" + (r.host + ['/'] + ("v2/" + PullPath(r.repository, r.tag)))
  }

  /** Two references with slash-free hosts have one address exactly when they have one host and one path. */
  lemma SameUrl(a: Ref, b: Ref)
    requires '/' !in a.host && '/' !in b.host
    ensures ManifestUrl(a) == ManifestUrl(b) <==>
            a.host == b.host && PullPath(a.repository, a.tag) == PullPath(b.repository, b.tag)
  {
    if ManifestUrl(a) == ManifestUrl(b) {
      var pathA, pathB := "v2/" + PullPath(a.repository, a.tag), "v2/" + PullPath(b.repository, b.tag);
      SameTail("https://", a.host + ['/'] + pathA, b.host + ['/'] + pathB);
      FirstSeparator(a.host, pathA, b.host, pathB, '/');
      SameTail("v2/", PullPath(a.repository, a.tag), PullPath(b.repository, b.tag));
    }
  }

  lemma SameTail(front: string, a: string, b: string)
    requires front + a == front + b
    ensures a == b
  {
    assert (front + a)[|front|..] == a && (front + b)[|front|..] == b;
  }

  /** The path can be cut at `k`: `middle` stands there, and no colon comes after it. */
  predicate CutsAt(path: string, middle: string, k: nat) {
    k + |middle| <= |path| && path[k..k + |middle|] == middle && ':' !in path[k + |middle|..]
  }

  lemma CutSplits(path: string, middle: string, k: nat)
    requires CutsAt(path, middle, k)
    ensures path == path[..k] + middle + path[k + |middle|..]
  {
  }

  lemma PathIsCut(front: string, middle: string, back: string)
    requires ':' !in back
    ensures CutsAt(front + middle + back, middle, |front|)
    ensures (front + middle + back)[..|front|] == front && (front + middle + back)[|front| + |middle|..] == back
  {
    var path := front + middle + back;
    assert path[|front| + |middle|..] == back;
    assert path[|front|..|front| + |middle|] == middle;
  }

  /** The other reference that a second cut of the path stands for. */
  function CutAt(r: Ref, middle: string, k: nat): Ref
    requires CutsAt(r.repository + middle + r.tag, middle, k)
  {
    var path := r.repository + middle + r.tag;
    Ref(r.host, path[..k], path[k + |middle|..])
  }

  lemma CutIsCanonical(r: Ref, middle: string, k: nat)
    requires Canonical(r) && '@' !in middle && CutsAt(r.repository + middle + r.tag, middle, k)
    ensures Canonical(CutAt(r, middle, k))
    ensures CutAt(r, middle, k).repository + middle + CutAt(r, middle, k).tag == r.repository + middle + r.tag
    ensures CutAt(r, middle, k) == r <==> k == |r.repository|
  {
    var path := r.repository + middle + r.tag;
    assert '@' !in path;
    CutSplits(path, middle, k);
    PathIsCut(r.repository, middle, r.tag);
  }

  /** Another canonical reference with the same address. */
  predicate Sharing(r: Ref, other: Ref) {
    Canonical(other) && other != r && ManifestUrl(other) == ManifestUrl(r)
  }

  /** Another canonical reference of the same registry whose parts give the same path around `middle`. */
  predicate SharingPath(r: Ref, other: Ref, middle: string) {
    && Canonical(other) && other != r && other.host == r.host
    && other.repository + middle + other.tag == r.repository + middle + r.tag
  }

  lemma SharingIsSharingPath(r: Ref, other: Ref)
    requires Canonical(r)
    ensures Sharing(r, other) <==> SharingPath(r, other, MIDDLE)
  {
    if Canonical(other) {
      SameUrl(other, r);
    }
  }

  lemma OtherPathIsCut(r: Ref, other: Ref, middle: string)
    requires Canonical(r) && SharingPath(r, other, middle)
    ensures |other.repository| != |r.repository| && CutsAt(r.repository + middle + r.tag, middle, |other.repository|)
  {
    PathIsCut(other.repository, middle, other.tag);
    PathIsCut(r.repository, middle, r.tag);
  }

  lemma CutIsOtherPath(r: Ref, middle: string, k: nat)
    requires Canonical(r) && '@' !in middle && k != |r.repository| && CutsAt(r.repository + middle + r.tag, middle, k)
    ensures SharingPath(r, CutAt(r, middle, k), middle)
  {
    CutIsCanonical(r, middle, k);
  }

  /** A canonical reference shares its address with another one exactly when `/manifests/` occurs a second time in its
      path, at a place after which there is no colon. */
  lemma SharesAddressExactly(r: Ref)
    requires Canonical(r)
    ensures (exists other :: Sharing(r, other)) <==>
            exists k :: k != |r.repository| && CutsAt(PullPath(r.repository, r.tag), MIDDLE, k)
  {
    if other :| Sharing(r, other) {
      SharingIsSharingPath(r, other);
      OtherPathIsCut(r, other, MIDDLE);
    }
    if k :| k != |r.repository| && CutsAt(PullPath(r.repository, r.tag), MIDDLE, k) {
      CutIsOtherPath(r, MIDDLE, k);
      SharingIsSharingPath(r, CutAt(r, MIDDLE, k));
    }
  }

  /** So canonical references with slash-free tags have distinct addresses. */
  lemma ManifestUrlsAreDistinct(a: Ref, b: Ref)
    requires Canonical(a) && Canonical(b) && '/' !in a.tag && '/' !in b.tag && ManifestUrl(a) == ManifestUrl(b)
    ensures a == b
  {
    SameUrl(a, b);
    assert PullPath(a.repository, a.tag) == a.repository + "/manifests" + ['/'] + a.tag;
    assert PullPath(b.repository, b.tag) == b.repository + "/manifests" + ['/'] + b.tag;
    LastSeparator(a.repository + "/manifests", a.tag, b.repository + "/manifests", b.tag, '/');
    SameFront(a.repository, b.repository, "/manifests");
  }

  lemma SameFront(a: string, b: string, back: string)
    requires a + back == b + back
    ensures a == b
  {
    assert (a + back)[..|a|] == a && (b + back)[..|b|] == b;
  }

  lemma LastSeparator(a: string, b: string, x: string, y: string, sep: char)
    requires sep !in b && sep !in y && a + [sep] + b == x + [sep] + y
    ensures a == x && b == y
  {
    var s, t := a + [sep] + b, x + [sep] + y;
    assert s[|a|] == sep && s[|a| + 1..] == b && s[..|a|] == a;
    assert t[|x|] == sep && t[|x| + 1..] == y && t[..|x|] == x;
    LastAt(s, sep, |a|);
    LastAt(t, sep, |x|);
  }

  /** A text without digest or tag of its own. */
  predicate Plain(s: string) {
    '@' !in s && ':' !in s
  }

  /** Two image texts that are parsed as different images with one address: `host/first:second/manifests/tag` and
      `host/first/manifests/second:tag`. */
  lemma TwoImagesOneAddress(host: string, first: string, second: string, tag: string)
    requires IsRegistry(host) && Plain(first) && Plain(second) && Plain(tag)
    ensures var x := host + ['/'] + (first + ":" + (second + MIDDLE + tag));
            var y := host + ['/'] + (first + MIDDLE + second + ":" + tag);
            && ParseImageRef(x) == Ref(host, first, second + MIDDLE + tag)
            && ParseImageRef(y) == Ref(host, first + MIDDLE + second, tag)
            && ParseImageRef(x) != ParseImageRef(y)
            && ManifestUrl(ParseImageRef(x)) == ManifestUrl(ParseImageRef(y))
  {
    ThreePlain(second, MIDDLE, tag);
    ThreePlain(first, MIDDLE, second);
    ParseTagged(host, first, second + MIDDLE + tag);
    ParseTagged(host, first + MIDDLE + second, tag);
    TwoCutsOnePath(first, MIDDLE, second, tag);
    SameUrl(Ref(host, first, second + MIDDLE + tag), Ref(host, first + MIDDLE + second, tag));
    assert |second + MIDDLE + tag| > |tag|;
  }

  lemma TwoCutsOnePath(first: string, middle: string, second: string, tag: string)
    ensures first + middle + (second + middle + tag) == first + middle + second + middle + tag
  {
  }

  lemma ThreePlain(a: string, b: string, c: string)
    requires Plain(a) && Plain(b) && Plain(c)
    ensures Plain(a + b + c)
  {
  }

  lemma ParseTagged(host: string, name: string, tag: string)
    requires IsRegistry(host) && Plain(name) && Plain(tag)
    ensures ParseImageRef(host + ['/'] + (name + ":" + tag)) == Ref(host, name, tag)
  {
    ParseWithRegistry(host, name + ":" + tag);
    NameAndTagOfPair(name, tag);
  }

  // ----- the parts of a reference

  /** A first part that names a registry: it has a dot, a colon, or `localhost` in any letter case. */
  ghost predicate IsHost(first: string) {
    '.' in first || ':' in first || exists a, b :: Lower(first) == a + "localhost" + b
  }

  lemma HostExactly(first: string)
    ensures NamesRegistry(first) <==> IsHost(first)
  {
    ContainsExactly(Lower(first), "localhost");
  }

  /** A name without a colon has the tag `latest`; otherwise the tag is what stands after the last colon. */
  lemma TagExactly(name: string, tag: string)
    ensures ':' !in name ==> NameAndTag(name) == (name, "latest")
    ensures ':' !in tag ==> NameAndTag(name + ":" + tag) == (name, tag)
  {
    if ':' !in tag {
      NameAndTagOfPair(name, tag);
    }
  }

  /** A first part that names a registry is the host; any other belongs to the repository, on Docker Hub. */
  lemma FirstPartExactly(first: string, rest: string)
    requires '/' !in first && '@' !in first && '@' !in rest
    ensures var r, (name, tag) := ParseImageRef(first + ['/'] + rest), NameAndTag(rest);
            r == if IsHost(first) then Ref(first, name, tag) else Ref("docker.io", first + "/" + name, tag)
  {
    var s := first + ['/'] + rest;
    assert s[|first|] == '/' && s[..|first|] == first && s[|first| + 1..] == rest;
    FirstAt(s, '/', |first|);
    HostExactly(first);
  }

  /** Untagged and tagged references with a first part, spelled out. */
  lemma ReferenceExactly(first: string, name: string, tag: string)
    requires '/' !in first && '@' !in first && '@' !in name && '@' !in tag && ':' !in tag
    ensures var (host, path) := if IsHost(first) then (first, name) else ("docker.io", first + "/" + name);
            && ParseImageRef(first + ['/'] + (name + ":" + tag)) == Ref(host, path, tag)
            && (':' !in name ==> ParseImageRef(first + ['/'] + name) == Ref(host, path, "latest"))
  {
    FirstPartExactly(first, name + ":" + tag);
    FirstPartExactly(first, name);
    TagExactly(name, tag);
  }

  /** Without a slash there is no host, and the name is an official image. */
  lemma SinglePartExactly(name: string, tag: string)
    requires '/' !in name && '@' !in name && '/' !in tag && '@' !in tag && ':' !in tag
    ensures ParseImageRef(name + ":" + tag) == Ref("docker.io", "library/" + name, tag)
    ensures ':' !in name ==> ParseImageRef(name) == Ref("docker.io", "library/" + name, "latest")
  {
    TagExactly(name, tag);
  }
}
