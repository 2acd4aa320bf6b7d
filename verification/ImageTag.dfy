/** Custom image tags: merging packages, and the payload that the tag's hash is taken over. */
module ImageTag {
  import opened Ordering
  import opened Text
  import opened DebugText

  datatype Kind = Ubuntu | Fedora | Arch | Debian | Alpine | NixOS

  datatype Template = Template(defaultImage: string, defaultPackages: seq<string>)

  datatype BuildSpec = BuildSpec(kind: Kind, baseTag: Option<string>, extras: seq<string>)

  /** The defaults, then each extra package not already present. */
  function Merged(defaults: seq<string>, extras: seq<string>): seq<string> {
    if extras == [] then defaults
    else
      var n := |extras| - 1;
      var before := Merged(defaults, extras[..n]);
      if extras[n] in before then before else before + [extras[n]]
  }

  /** `merged_packages`. */
  method MergedPackages(defaults: seq<string>, extras: seq<string>) returns (out: seq<string>)
    ensures out == Merged(defaults, extras)
  {
    out := defaults;
    for i := 0 to |extras|
      invariant out == Merged(defaults, extras[..i])
    {
      assert extras[..i + 1][..i] == extras[..i];
      if extras[i] !in out { out := out + [extras[i]]; }
    }
    assert extras[..|extras|] == extras;
  }

  /** The defaults come first as they are, nothing is lost or invented, and no added package repeats. */
  lemma {:induction false} MergedMeaning(defaults: seq<string>, extras: seq<string>)
    ensures
      var m := Merged(defaults, extras);
      && defaults <= m
      && (forall p :: p in m <==> p in defaults || p in extras)
      && (forall i, j :: 0 <= i < j < |m| && |defaults| <= j ==> m[i] != m[j])
  {
    if extras != [] {
      var n := |extras| - 1;
      MergedMeaning(defaults, extras[..n]);
      assert extras == extras[..n] + [extras[n]];
    }
  }

  // ----- Sorting and removing repeats -----

  predicate Sorted(s: seq<string>) {
    forall i, j :: 0 <= i < j < |s| ==> !StringLess(s[j], s[i])
  }

  function Insert(s: seq<string>, x: string): seq<string> {
    if s == [] then [x]
    else
      var n := |s| - 1;
      if StringLess(x, s[n]) then Insert(s[..n], x) + [s[n]] else s + [x]
  }

  function Sort(s: seq<string>): seq<string> {
    if s == [] then [] else Insert(Sort(s[..|s| - 1]), s[|s| - 1])
  }

  /** `Vec::dedup`: drop each element equal to the one before it. */
  function Dedup(s: seq<string>): seq<string> {
    if |s| < 2 then s
    else
      var n := |s| - 1;
      if s[n] == s[n - 1] then Dedup(s[..n]) else Dedup(s[..n]) + [s[n]]
  }

  lemma {:induction false} InsertSorts(s: seq<string>, x: string)
    requires Sorted(s)
    ensures Sorted(Insert(s, x)) && forall p :: p in Insert(s, x) <==> p in s || p == x
  {
    if s != [] {
      var n := |s| - 1;
      InsertSorts(s[..n], x);
      assert s == s[..n] + [s[n]];
      if StringLess(x, s[n]) {
        AppendLargest(Insert(s[..n], x), s[n]) by {
          StringAsymmetric(x, s[n]);
          assert forall p :: p in s[..n] ==> !StringLess(s[n], p);
        }
      } else {
        AppendLargest(s, x) by {
          forall p | p in s ensures !StringLess(x, p) { NotBelow(s, x, p); }
        }
      }
    }
  }

  lemma {:induction false} AppendLargest(s: seq<string>, x: string)
    requires Sorted(s) && forall p :: p in s ==> !StringLess(x, p)
    ensures Sorted(s + [x])
  {
  }

  lemma {:induction false} StringAsymmetric(a: string, b: string)
    requires StringLess(a, b)
    ensures !StringLess(b, a)
  {
    StringOrder();
  }

  lemma {:induction false} NotBelow(s: seq<string>, x: string, p: string)
    requires Sorted(s) && p in s && !StringLess(x, s[|s| - 1])
    ensures !StringLess(x, p)
  {
    StringOrder();
    var last := s[|s| - 1];
    assert p == last || !StringLess(last, p);
    assert p == last || StringLess(p, last);
  }

  lemma {:induction false} SortSorts(s: seq<string>)
    ensures Sorted(Sort(s)) && forall p :: p in Sort(s) <==> p in s
  {
    if s != [] {
      var n := |s| - 1;
      SortSorts(s[..n]);
      InsertSorts(Sort(s[..n]), s[n]);
      assert s == s[..n] + [s[n]];
    }
  }

  lemma {:induction false} DedupMembers(s: seq<string>)
    ensures forall p :: p in Dedup(s) <==> p in s
    decreases |s|
  {
    if |s| >= 2 {
      var n := |s| - 1;
      DedupMembers(s[..n]);
      assert s == s[..n] + [s[n]];
      if s[n] == s[n - 1] { assert s[..n][n - 1] == s[n]; }
    }
  }

  lemma {:induction false} AppendAbove(s: seq<string>, x: string)
    requires StrictlySorted(StringLess, s) && forall i :: 0 <= i < |s| ==> StringLess(s[i], x)
    ensures StrictlySorted(StringLess, s + [x])
  {
  }

  lemma {:induction false} DedupStrict(s: seq<string>)
    requires Sorted(s)
    ensures StrictlySorted(StringLess, Dedup(s)) && forall p :: p in Dedup(s) <==> p in s
    decreases |s|
  {
    DedupMembers(s);
    if |s| >= 2 {
      var n := |s| - 1;
      var h := Dedup(s[..n]);
      DedupStrict(s[..n]);
      if s[n] != s[n - 1] {
        forall i | 0 <= i < |h| ensures StringLess(h[i], s[n]) {
          assert h[i] in h;
          BelowNext(s, h[i]);
        }
        AppendAbove(h, s[n]);
      }
    }
  }

  lemma {:induction false} BelowNext(s: seq<string>, p: string)
    requires Sorted(s) && |s| >= 2 && s[|s| - 1] != s[|s| - 2] && p in s[..|s| - 1]
    ensures StringLess(p, s[|s| - 1])
  {
    StringOrder();
    var n := |s| - 1;
    assert StringLess(s[n - 1], s[n]);
    var i :| 0 <= i < n && s[i] == p;
    assert i == n - 1 || !StringLess(s[n - 1], s[i]);
  }

  // ----- The payload and the tag -----

  /** What `Registry::inspect` gives for each kind, and which characters `{:?}` prints as they are. */
  datatype Context = Context(inspect: Kind -> Template, printable: char -> bool)

  function KindName(k: Kind): string {
    match k
    case Ubuntu => "ubuntu"
    case Fedora => "fedora"
    case Arch => "arch"
    case Debian => "debian"
    case Alpine => "alpine"
    case NixOS => "nixos"
  }

  function Packages(spec: BuildSpec, ctx: Context): seq<string> {
    Dedup(Sort(Merged(ctx.inspect(spec.kind).defaultPackages, spec.extras)))
  }

  /** The text `{}|{:?}|{:?}` that is hashed. */
  function Payload(spec: BuildSpec, ctx: Context): string {
    KindName(spec.kind) + ['|']
    + (OptionText(ctx.printable, spec.baseTag) + "|" + ListText(ctx.printable, Packages(spec, ctx)))
  }

  predicate HasPackage(spec: BuildSpec, ctx: Context, p: string) {
    p in ctx.inspect(spec.kind).defaultPackages || p in spec.extras
  }

  lemma {:induction false} PackagesMeaning(spec: BuildSpec, ctx: Context)
    ensures StrictlySorted(StringLess, Packages(spec, ctx))
    ensures forall p :: p in Packages(spec, ctx) <==> HasPackage(spec, ctx, p)
  {
    var merged := Merged(ctx.inspect(spec.kind).defaultPackages, spec.extras);
    MergedMeaning(ctx.inspect(spec.kind).defaultPackages, spec.extras);
    SortSorts(merged);
    DedupStrict(Sort(merged));
  }

  lemma {:induction false} KindNameUnique(k: Kind, l: Kind)
    ensures '|' !in KindName(k)
    ensures KindName(k) == KindName(l) ==> k == l
  {
    KindNameHead(k);
    KindNameHead(l);
  }

  /** The first letter and the length tell the kinds apart. */
  lemma {:induction false} KindNameHead(k: Kind)
    ensures
      var s := KindName(k);
      |s| >= 4 && match k
      case Ubuntu => s[0] == 'u'
      case Fedora => s[0] == 'f'
      case Arch => s[0] == 'a' && |s| == 4
      case Debian => s[0] == 'd'
      case Alpine => s[0] == 'a' && |s| == 6
      case NixOS => s[0] == 'n'
  {
  }

  /** The hashed text determines its three parts: nothing in a base tag or package name can imitate another. */
  lemma {:induction false} PayloadParts(a: BuildSpec, b: BuildSpec, ctx: Context)
    requires Payload(a, ctx) == Payload(b, ctx)
    ensures a.kind == b.kind && a.baseTag == b.baseTag && Packages(a, ctx) == Packages(b, ctx)
  {
    KindNameUnique(a.kind, b.kind);
    KindNameUnique(b.kind, a.kind);
    var la, lb := ListText(ctx.printable, Packages(a, ctx)), ListText(ctx.printable, Packages(b, ctx));
    var ra, rb := OptionText(ctx.printable, a.baseTag) + "|" + la, OptionText(ctx.printable, b.baseTag) + "|" + lb;
    FirstCutUnique(KindName(a.kind), ra, KindName(b.kind), rb, '|');
    OptionUnique(ctx.printable, a.baseTag, la, b.baseTag, lb);
    ListUnique(ctx.printable, Packages(a, ctx), Packages(b, ctx));
  }

  lemma {:induction false} SamePackages(a: BuildSpec, b: BuildSpec, ctx: Context)
    ensures Packages(a, ctx) == Packages(b, ctx) <==> forall p :: HasPackage(a, ctx, p) <==> HasPackage(b, ctx, p)
  {
    PackagesMeaning(a, ctx);
    PackagesMeaning(b, ctx);
    if forall p :: HasPackage(a, ctx, p) <==> HasPackage(b, ctx, p) {
      StringOrder();
      ListingUnique(StringLess, Packages(a, ctx), Packages(b, ctx));
    } else {
      var p :| HasPackage(a, ctx, p) != HasPackage(b, ctx, p);
      assert (p in Packages(a, ctx)) != (p in Packages(b, ctx));
    }
  }

  /** Two builds hash the same text exactly when they have the same kind, the same base tag override and the same
      set of packages, whatever the order and repetitions of their lists. */
  lemma {:induction false} PayloadCanonical(a: BuildSpec, b: BuildSpec, ctx: Context)
    ensures Payload(a, ctx) == Payload(b, ctx)
       <==> && a.kind == b.kind && a.baseTag == b.baseTag
            && forall p :: HasPackage(a, ctx, p) <==> HasPackage(b, ctx, p)
  {
    SamePackages(a, b, ctx);
    if Payload(a, ctx) == Payload(b, ctx) { PayloadParts(a, b, ctx); }
  }

  function EffectiveBaseTag(spec: BuildSpec, ctx: Context): string {
    match spec.baseTag
    case Some(t) => t
    case None =>
      match RSplitOnce(ctx.inspect(spec.kind).defaultImage, ':')
      case Some((_, t)) => t
      case None => "latest"
  }

  /** `image_tag`, for any hash function. */
  function Tag(spec: BuildSpec, ctx: Context, hash: string -> string): string {
    "linpodx-distro/" + KindName(spec.kind) + ":" + EffectiveBaseTag(spec, ctx) + "-custom-" + hash(Payload(spec, ctx))
  }

  /** Which base tag appears: the override, else what follows the last colon of the default image, else "latest". */
  lemma {:induction false} TagText(spec: BuildSpec, ctx: Context, hash: string -> string, image: string, base: string)
    requires
      || spec.baseTag == Some(base)
      || (spec.baseTag == None && ctx.inspect(spec.kind).defaultImage == image + ":" + base && ':' !in base)
      || (spec.baseTag == None && ':' !in ctx.inspect(spec.kind).defaultImage && base == "latest")
    ensures
      var name :=
        match spec.kind
        case Ubuntu => "ubuntu"
        case Fedora => "fedora"
        case Arch => "arch"
        case Debian => "debian"
        case Alpine => "alpine"
        case NixOS => "nixos";
      Tag(spec, ctx, hash) == "linpodx-distro/" + name + ":" + base + "-custom-" + hash(Payload(spec, ctx))
  {
    if spec.baseTag == None && ctx.inspect(spec.kind).defaultImage == image + ":" + base && ':' !in base {
      RSplitOnceAt(image, ':', base);
      assert image + ":" + base == image + [':'] + base;
    }
  }

  /** The tag depends only on the kind, the base tag override and the package set. */
  lemma {:induction false} TagDependsOnSet(a: BuildSpec, b: BuildSpec, ctx: Context, hash: string -> string)
    requires a.kind == b.kind && a.baseTag == b.baseTag
    requires forall p :: HasPackage(a, ctx, p) <==> HasPackage(b, ctx, p)
    ensures Tag(a, ctx, hash) == Tag(b, ctx, hash)
  {
    PayloadCanonical(a, b, ctx);
  }

  /** Builds that hash differently get different tags, whatever their other parts, as the hash has a fixed length. */
  lemma {:induction false} TagsSeparate(a: BuildSpec, b: BuildSpec, ctx: Context, hash: string -> string)
    requires |hash(Payload(a, ctx))| == |hash(Payload(b, ctx))| == 8
    requires hash(Payload(a, ctx)) != hash(Payload(b, ctx))
    ensures Tag(a, ctx, hash) != Tag(b, ctx, hash)
  {
    var ta, tb := Tag(a, ctx, hash), Tag(b, ctx, hash);
    assert ta[|ta| - 8..] == hash(Payload(a, ctx)) && tb[|tb| - 8..] == hash(Payload(b, ctx));
  }
}
