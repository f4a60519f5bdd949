/** The FDF catalog mirror location, derived twice: by the step that tags the mirrored catalog
    (`tag_fdf_catalog_adjacent_versions`) and by the step that mirrors it and publishes the
    ImageTagMirrorSet (`mirror_index_image_via_oc_mirror`). */
module MirrorUrl {
  import opened Py

  const CATALOG := "/cpopen/isf-data-foundation-catalog"

  // ---------------------------------------------------------------------------- strings

  /** `s.rstrip(c)` */
  function RStrip(s: string, c: char): (r: string)
    ensures r <= s
    ensures r != [] ==> r[|r| - 1] != c
    ensures forall i :: |r| <= i < |s| ==> s[i] == c
  {
    if s != [] && s[|s| - 1] == c then RStrip(s[..|s| - 1], c) else s
  }

  /** `s.lstrip(c)` */
  function LStrip(s: string, c: char): string {
    if s != [] && s[0] == c then LStrip(s[1..], c) else s
  }

  /** `s.replace(a, b)` for single characters. */
  function Replace(s: string, a: char, b: char): string {
    seq(|s|, i requires 0 <= i < |s| => if s[i] == a then b else s[i])
  }

  /** `s.split(c)[-1]` */
  function AfterLast(s: string, c: char): string {
    if s == [] || s[|s| - 1] == c then [] else AfterLast(s[..|s| - 1], c) + [s[|s| - 1]]
  }

  // ------------------------------------------------------------------------- derivations

  /** Where the tag is taken from when the image carries none. */
  datatype Defaults = Defaults(imageTag: Option<string>, fdfVersion: Option<string>)

  function TagOf(image: string, d: Defaults): string {
    if ':' in image then AfterLast(image, ':')
    else if d.imageTag.Some? && d.imageTag.value != "" then d.imageTag.value
    else if d.fdfVersion.Some? then d.fdfVersion.value
    else ""
  }

  function Subpath(tag: string): string { Replace(LStrip(tag, 'v'), '.', '-') }

  /** The mirror base of the tagging step. */
  function TaggingTarget(registry: string, tag: string): string {
    var clean := RStrip(registry, '/');
    if EndsWith(clean, Subpath(tag)) then clean else clean + "/" + Subpath(tag)
  }

  /** The repository the tagging step writes to; None when it skips. */
  function TaggingRepository(image: string, registry: string, d: Defaults): Option<string> {
    var tag := TagOf(image, d);
    if registry == "" || tag == "" then None else Some(TaggingTarget(registry, tag) + CATALOG)
  }

  /** The mirror base of the mirroring step. */
  function MirrorTarget(image: string, registry: string, fdf: bool, d: Defaults): string {
    var base := RStrip(registry, '/');
    if !fdf then base else
    var tag := TagOf(image, d);
    if tag == "" then base
    else if !EndsWith(base, Subpath(tag)) then base + "/" + Subpath(tag) else base
  }

  /** The mirror named in the published ImageTagMirrorSet; None when none is published. */
  function PublishedMirror(image: string, registry: string, fdf: bool, d: Defaults): Option<string> {
    if fdf then Some(MirrorTarget(image, registry, fdf, d) + CATALOG) else None
  }

  // ------------------------------------------------------------------------ what they say

  lemma {:induction false} LStripAll(vs: string, t: string, c: char)
    requires (forall i :: 0 <= i < |vs| ==> vs[i] == c) && (t == "" || t[0] != c)
    ensures LStrip(vs + t, c) == t
  {
    if vs == [] {
      assert vs + t == t;
    } else {
      assert (vs + t)[1..] == vs[1..] + t;
      LStripAll(vs[1..], t, c);
    }
  }

  /** SUBPATH: the tag without its leading letters v, each dot replaced by a dash. */
  lemma {:induction false} SubpathMeaning(vs: string, t: string)
    requires (forall i :: 0 <= i < |vs| ==> vs[i] == 'v') && (t == "" || t[0] != 'v')
    ensures |Subpath(vs + t)| == |t|
    ensures forall i :: 0 <= i < |t| ==> Subpath(vs + t)[i] == if t[i] == '.' then '-' else t[i]
  {
    LStripAll(vs, t, 'v');
  }

  lemma {:induction false} AfterLastMeaning(a: string, c: char, b: string)
    requires c !in b
    ensures AfterLast(a + [c] + b, c) == b
  {
    var s := a + [c] + b;
    if b == [] {
      assert s[|s| - 1] == c;
    } else {
      var n := |b| - 1;
      assert s[..|s| - 1] == a + [c] + b[..n];
      assert b[n] in b;
      AfterLastMeaning(a, c, b[..n]);
      assert b == b[..n] + [b[n]];
    }
  }

  /** TAG: what follows the last colon of the image; without a colon the configured image tag, or
      else the configured version. */
  lemma {:induction false} TagMeaning(image: string, d: Defaults)
    ensures forall a, b :: image == a + ":" + b && ':' !in b ==> TagOf(image, d) == b
    ensures ':' !in image && d.imageTag.Some? && d.imageTag.value != "" ==> TagOf(image, d) == d.imageTag.value
    ensures ':' !in image && (d.imageTag == None || d.imageTag == Some("")) ==>
      TagOf(image, d) == if d.fdfVersion.Some? then d.fdfVersion.value else ""
  {
    forall a, b | image == a + ":" + b && ':' !in b ensures TagOf(image, d) == b {
      AfterLastMeaning(a, ':', b);
      assert image == a + [':'] + b;
      assert image[|a|] == ':';
    }
  }

  /** REPOSITORY: trailing slashes of the registry do not matter; the subpath is appended unless the
      registry ends with it, and the catalog's own path comes last. */
  lemma {:induction false} RepositoryText(image: string, base: string, slashes: string, d: Defaults)
    requires (base == "" || base[|base| - 1] != '/') && AllSlashes(slashes) && base + slashes != ""
    requires TagOf(image, d) != ""
    ensures var sub, repository := Subpath(TagOf(image, d)), TaggingRepository(image, base + slashes, d);
      && repository.Some?
      && ((exists a :: base == a + sub) ==> repository.value == base + "/cpopen/isf-data-foundation-catalog")
      && ((!exists a :: base == a + sub) ==>
            repository.value == base + "/" + sub + "/cpopen/isf-data-foundation-catalog")
  {
    RStripDrops(base, slashes);
    RStripKeeps(base, '/');
    EndsWithMeaning(base, Subpath(TagOf(image, d)));
  }

  // -------------------------------------------------------------------------- agreement

  /** AGREEMENT: the two steps name the same repository exactly when the tagging step does not
      skip, that is, for a non-empty registry and tag. */
  lemma {:induction false} RepositoriesAgree(image: string, registry: string, d: Defaults)
    ensures TaggingRepository(image, registry, d) == PublishedMirror(image, registry, true, d) <==>
      registry != "" && TagOf(image, d) != ""
  {
  }

  predicate AllSlashes(s: string) { forall i :: 0 <= i < |s| ==> s[i] == '/' }

  lemma {:induction false} RStripKeeps(s: string, c: char)
    requires s == [] || s[|s| - 1] != c
    ensures RStrip(s, c) == s
  {
  }

  lemma {:induction false} RStripDrops(s: string, t: string)
    requires AllSlashes(t)
    ensures RStrip(s + t, '/') == RStrip(s, '/')
  {
    if t == [] {
      assert s + t == s;
    } else {
      var n := |t| - 1;
      assert (s + t)[..|s| + n] == s + t[..n];
      RStripDrops(s, t[..n]);
    }
  }

  lemma {:induction false} EndsWithAppend(a: string, b: string)
    ensures EndsWith(a + b, b)
  {
  }

  lemma {:induction false} EndsWithSlash(s: string)
    ensures EndsWith(s, "/") <==> s != [] && s[|s| - 1] == '/'
  {
    if s != [] { assert s[|s| - 1..] == [s[|s| - 1]]; }
  }

  /** The derived target always ends with the version subpath. */
  lemma {:induction false} TargetEnds(registry: string, tag: string)
    ensures EndsWith(TaggingTarget(registry, tag), Subpath(tag))
  {
    EndsWithAppend(RStrip(registry, '/') + "/", Subpath(tag));
  }

  /** RE-DERIVATION: deriving the target again from an already derived one returns it unchanged
      exactly when the subpath does not end in "/", or consists of slashes only. */
  lemma {:induction false} Rederived(registry: string, tag: string)
    ensures var sub, target := Subpath(tag), TaggingTarget(registry, tag);
      TaggingTarget(target, tag) == target <==> !EndsWith(sub, "/") || AllSlashes(sub)
  {
    var clean, sub, target := RStrip(registry, '/'), Subpath(tag), TaggingTarget(registry, tag);
    TargetEnds(registry, tag);
    if !EndsWith(sub, "/") {
      KeepsPlain(clean, sub);
    } else {
      assert sub[|sub| - 1] == '/';
      assert !EndsWith(clean, sub);
      assert target == clean + "/" + sub;
      var again := RStrip(target, '/');
      assert !EndsWith(again, sub);
      assert TaggingTarget(target, tag) == again + "/" + sub;
      if AllSlashes(sub) {
        StripsAll(clean, sub);
      } else {
        StripsLess(clean, sub);
      }
    }
  }

  /** The tag "4/" is outside the domain of the re-derivation: "r/4/" becomes "r/4/4/". */
  lemma {:induction false} TrailingSlash()
    ensures TaggingTarget("r", "4/") == "r/4/"
    ensures TaggingTarget("r/4/", "4/") == "r/4/4/"
  {
    assert Subpath("4/") == "4/";
    assert "r/4/"[..3] == "r/4";
    assert RStrip("r/4", '/') == "r/4";
  }

  lemma {:induction false} KeepsPlain(clean: string, sub: string)
    requires (clean == [] || clean[|clean| - 1] != '/') && !EndsWith(sub, "/")
    ensures RStrip(clean, '/') == clean
    ensures EndsWith(clean, sub) || RStrip(clean + "/" + sub, '/') == clean + "/" + sub
  {
    RStripKeeps(clean, '/');
    if sub == [] {
      assert clean[|clean|..] == [];
    } else {
      EndsWithSlash(sub);
      RStripKeeps(clean + "/" + sub, '/');
    }
  }

  lemma {:induction false} StripsAll(clean: string, sub: string)
    requires (clean == [] || clean[|clean| - 1] != '/') && AllSlashes(sub)
    ensures RStrip(clean + "/" + sub, '/') == clean
  {
    assert clean + "/" + sub == clean + ("/" + sub);
    RStripDrops(clean, "/" + sub);
    RStripKeeps(clean, '/');
  }

  lemma {:induction false} StripsLess(clean: string, sub: string)
    requires !AllSlashes(sub)
    ensures |RStrip(clean + "/" + sub, '/')| > |clean|
  {
    var s := clean + "/" + sub;
    var i :| 0 <= i < |sub| && sub[i] != '/';
    assert s[|clean| + 1 + i] == sub[i];
  }

  /** A trailing "/" of the subpath is one of the tag. */
  lemma {:induction false} SubpathSlash(tag: string)
    ensures EndsWith(Subpath(tag), "/") ==> EndsWith(tag, "/")
  {
    LStripSuffix(tag, 'v');
    var rest := LStrip(tag, 'v');
    if EndsWith(Subpath(tag), "/") {
      var n := |rest| - 1;
      assert Subpath(tag)[n] == "/"[0];
      assert rest[n] == '/';
      assert tag[|tag| - 1] == '/';
      assert tag[|tag| - 1..] == "/";
    }
  }

  lemma {:induction false} LStripSuffix(s: string, c: char)
    ensures |LStrip(s, c)| <= |s| && s[|s| - |LStrip(s, c)|..] == LStrip(s, c)
  {
    if s != [] && s[0] == c { LStripSuffix(s[1..], c); }
  }

  /** In particular a tag that does not end in "/" always re-derives to the same target. */
  lemma {:induction false} RederivedPlainTag(registry: string, tag: string)
    requires !EndsWith(tag, "/")
    ensures TaggingTarget(TaggingTarget(registry, tag), tag) == TaggingTarget(registry, tag)
  {
    SubpathSlash(tag);
    Rederived(registry, tag);
  }

  /** The suffix test has no separator: a registry whose path merely ends in the subpath is taken
      for a versioned one, and exactly then the target lacks a component of its own for it. */
  lemma {:induction false} OwnComponent(registry: string, tag: string)
    ensures var clean, sub := RStrip(registry, '/'), Subpath(tag);
      EndsWith(TaggingTarget(registry, tag), "/" + sub) <==> EndsWith(clean, sub) ==> EndsWith(clean, "/" + sub)
  {
    var clean, sub := RStrip(registry, '/'), Subpath(tag);
    if !EndsWith(clean, sub) {
      assert clean + "/" + sub == clean + ("/" + sub);
      EndsWithAppend(clean, "/" + sub);
    }
  }
}
