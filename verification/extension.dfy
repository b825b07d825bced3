/**
  The identity of an extension as `AbstractExtension` derives it from the
  fully qualified class name: namespace, name, vendor and id, each
  memoised in a private field, plus the base-directory and relative-URL
  accessors. Directories are reduced to their path.
 */
module ExtensionIdentity {
  import opened Common
  import opened Strings

  const Backslash: string := "\\"
  const ExtensionWord: string := "Extension"
  const BoltExtensionNamespace: string := "Bolt\\Extension\\"

  /** The class name without its namespace: the last `explode('\\', ..)` segment. */
  function ShortName(cls: string): (r: string)
    ensures !Contains(r, Backslash)
    ensures !Contains(cls, Backslash) ==> r == cls
  {
    match LastIndexOf(cls, Backslash)
    case None => cls
    case Some(i) =>
      var r := cls[i + 1..];
      assert !Contains(r, Backslash) by {
        forall k | 0 <= k <= |r| && OccursAt(r, Backslash, k)
          ensures false
        {
          OccursInSuffix(cls, Backslash, i + 1, k);
        }
      }
      r
  }

  /** `getNamespace`: the class name up to, not including, its last backslash; empty without one. */
  function Namespace(cls: string): (ns: string)
    ensures ns <= cls
    ensures !Contains(cls, Backslash) ==> ns == ""
    ensures Contains(cls, Backslash) ==> cls == ns + Backslash + ShortName(cls)
  {
    match LastIndexOf(cls, Backslash)
    case None => ""
    case Some(i) =>
      assert cls == cls[..i] + Backslash + cls[i + 1..];
      cls[..i]
  }

  /** The short name cut at the last occurrence of `Extension`. */
  function CutAtExtension(short: string): (r: string)
    ensures !Contains(short, ExtensionWord) ==> r == short
    ensures Contains(short, ExtensionWord) ==>
      r + ExtensionWord <= short
      && forall j :: |r| < j ==> !OccursAt(short, ExtensionWord, j)
  {
    match LastIndexOf(short, ExtensionWord)
    case None => short
    case Some(pos) =>
      assert short[..pos] + ExtensionWord == short[..pos + |ExtensionWord|];
      short[..pos]
  }

  /**
    `getName`: the short class name cut at its last `Extension`; when that
    leaves nothing, the last namespace segment, and PHP `null` when there
    is no namespace to fall back on.
   */
  function Name(cls: string): (r: Option<string>)
    ensures CutAtExtension(ShortName(cls)) != "" ==> r == Some(CutAtExtension(ShortName(cls)))
    ensures CutAtExtension(ShortName(cls)) == "" && Contains(cls, Backslash) ==>
      r == Some(ShortName(Namespace(cls)))
    ensures r.None? <==> CutAtExtension(ShortName(cls)) == "" && !Contains(cls, Backslash)
    ensures r.Some? ==> !Contains(r.value, Backslash)
  {
    var cut := CutAtExtension(ShortName(cls));
    if cut != "" then
      assert !Contains(cut, Backslash) by {
        forall k | 0 <= k <= |cut| && OccursAt(cut, Backslash, k)
          ensures false
        {
          assert cut == ShortName(cls)[..|cut|];
          OccursInPrefix(ShortName(cls), Backslash, |cut|, k);
        }
      }
      Some(cut)
    else if Contains(cls, Backslash) then Some(ShortName(Namespace(cls)))
    else None
  }

  /** The text up to, not including, the first backslash; all of it without one. */
  function FirstSegment(name: string): (v: string)
    ensures v <= name
    ensures !Contains(v, Backslash)
    ensures !Contains(name, Backslash) ==> v == name
    ensures Contains(name, Backslash) ==> |v| < |name| && name[|v|] == '\\'
  {
    match IndexOf(name, Backslash)
    case None => name
    case Some(pos) =>
      assert !Contains(name[..pos], Backslash) by {
        forall k | 0 <= k <= pos && OccursAt(name[..pos], Backslash, k)
          ensures false
        {
          OccursInPrefix(name, Backslash, pos, k);
        }
      }
      assert name[pos..pos + 1] == Backslash;
      name[..pos]
  }

  /**
    `getVendor`: the namespace with its first `Bolt\Extension\` removed, up
    to its first backslash.
   */
  function Vendor(cls: string): (v: string)
    ensures v <= ReplaceFirst(Namespace(cls), BoltExtensionNamespace, "")
    ensures !Contains(v, Backslash)
    ensures !Contains(ReplaceFirst(Namespace(cls), BoltExtensionNamespace, ""), Backslash) ==>
      v == ReplaceFirst(Namespace(cls), BoltExtensionNamespace, "")
    ensures var rest := ReplaceFirst(Namespace(cls), BoltExtensionNamespace, "");
      Contains(rest, Backslash) ==> |v| < |rest| && rest[|v|] == '\\'
  {
    FirstSegment(ReplaceFirst(Namespace(cls), BoltExtensionNamespace, ""))
  }

  /** `getId`: vendor, a slash, and the name (PHP's `null` concatenates as nothing). */
  function Id(cls: string): (id: string)
    ensures |id| > |Vendor(cls)| && id[|Vendor(cls)|] == '/'
    ensures id[..|Vendor(cls)|] == Vendor(cls)
    ensures id[|Vendor(cls)| + 1..] == Name(cls).GetOr("")
  {
    Vendor(cls) + "/" + Name(cls).GetOr("")
  }

  /** A class name without `/` gives a vendor without `/`. */
  lemma NoSlashInVendor(cls: string)
    requires '/' !in cls
    ensures '/' !in Vendor(cls)
  {
    var ns := Namespace(cls);
    AbsentFromPrefix(cls, ns, '/');
    var rest := ReplaceFirst(ns, BoltExtensionNamespace, "");
    RemovalKeepsAbsentChar(ns, BoltExtensionNamespace, '/');
    AbsentFromPrefix(rest, Vendor(cls), '/');
  }

  lemma AbsentFromPrefix(s: string, t: string, c: char)
    requires t <= s && c !in s
    ensures c !in t
  {
    assert t == s[..|t|];
  }

  /** Removing the first occurrence of a string brings in no new character. */
  lemma RemovalKeepsAbsentChar(s: string, from: string, c: char)
    requires c !in s
    ensures c !in ReplaceFirst(s, from, "")
  {
    match IndexOf(s, from)
    case None =>
    case Some(i) =>
      assert ReplaceFirst(s, from, "") == s[..i] + s[i + |from|..];
      assert c !in s[..i] && c !in s[i + |from|..];
  }

  /**
    The id decodes: for a class name without `/`, its first `/` sits right
    after the vendor, so it splits back into vendor and name.
   */
  lemma IdDecodes(cls: string)
    requires '/' !in cls
    ensures IndexOf(Id(cls), "/") == Some(|Vendor(cls)|)
    ensures Id(cls)[..|Vendor(cls)|] == Vendor(cls)
    ensures Id(cls)[|Vendor(cls)| + 1..] == Name(cls).GetOr("")
  {
    var id, v := Id(cls), Vendor(cls);
    NoSlashInVendor(cls);
    assert OccursAt(id, "/", |v|) by {
      assert id[|v|..|v| + 1] == "/";
    }
    forall j | 0 <= j < |v|
      ensures !OccursAt(id, "/", j)
    {
      assert id[j] == v[j];
    }
  }

  /** A position holding another character is not an occurrence of a backslash. */
  lemma NotBackslashAt(s: string, j: nat)
    requires j < |s| && s[j] != '\\'
    ensures !OccursAt(s, Backslash, j)
  {
    assert s[j..j + 1][0] == s[j];
  }

  /** Splitting a class name at a backslash followed by a backslash-free short name. */
  lemma SplitClassName(ns: string, short: string)
    requires '\\' !in short
    ensures ShortName(ns + Backslash + short) == short
    ensures Namespace(ns + Backslash + short) == ns
  {
    var cls := ns + Backslash + short;
    assert OccursAt(cls, Backslash, |ns|);
    forall j | |ns| < j
      ensures !OccursAt(cls, Backslash, j)
    {
      if j < |cls| {
        assert cls[j] == short[j - |ns| - 1];
        assert short[j - |ns| - 1] in short;
        NotBackslashAt(cls, j);
      }
    }
    assert LastIndexOf(cls, Backslash) == Some(|ns|);
    assert cls[|ns| + 1..] == short;
  }

  /** The first backslash of a name whose leading segment has none. */
  lemma FirstBackslash(a: string, b: string)
    requires '\\' !in a
    ensures IndexOf(a + Backslash + b, Backslash) == Some(|a|)
  {
    var s := a + Backslash + b;
    assert OccursAt(s, Backslash, |a|);
    forall j | 0 <= j < |a|
      ensures !OccursAt(s, Backslash, j)
    {
      assert s[j] == a[j];
      assert a[j] in a;
      NotBackslashAt(s, j);
    }
  }

  /** A name without a backslash character has no backslash occurrence. */
  lemma NoBackslash(s: string)
    requires '\\' !in s
    ensures !Contains(s, Backslash)
  {
    forall k | 0 <= k < |s|
      ensures !OccursAt(s, Backslash, k)
    {
      assert s[k] in s;
      NotBackslashAt(s, k);
    }
  }

  const BlogClass: string := "Bolt\\Extension\\Acme\\Blog\\BlogExtension"

  /** Worked example: the namespace and short name of a conventionally named extension class. */
  lemma BlogClassSplits()
    ensures Namespace(BlogClass) == "Bolt\\Extension\\Acme\\Blog"
    ensures ShortName(BlogClass) == "BlogExtension"
  {
    var ns := "Bolt\\Extension\\Acme\\Blog";
    assert BlogClass == ns + Backslash + "BlogExtension";
    SplitClassName(ns, "BlogExtension");
  }

  /** Worked example: the name drops the `Extension` suffix. */
  lemma BlogExtensionName()
    ensures Name(BlogClass) == Some("Blog")
  {
    BlogClassSplits();
    assert OccursAt("BlogExtension", ExtensionWord, 4);
    assert "BlogExtension"[..4] == "Blog";
  }

  /** Worked example: the vendor is the first segment after `Bolt\Extension\`. */
  lemma BlogExtensionVendor()
    ensures Vendor(BlogClass) == "Acme"
  {
    var ns := "Bolt\\Extension\\Acme\\Blog";
    BlogClassSplits();
    assert OccursAt(ns, BoltExtensionNamespace, 0);
    assert ns[|BoltExtensionNamespace|..] == "Acme" + Backslash + "Blog";
    assert ReplaceFirst(ns, BoltExtensionNamespace, "") == "Acme" + Backslash + "Blog";
    FirstBackslash("Acme", "Blog");
  }

  /** Worked example: a class named plain `Extension` takes its namespace's last segment. */
  lemma PlainExtensionName()
    ensures Name("Acme\\Blog\\Extension") == Some("Blog")
  {
    PlainExtensionParts();
    ExtensionCutsToNothing();
    AcmeBlogShortName();
  }

  /** `Acme\Blog\Extension` splits into namespace `Acme\Blog` and short name `Extension`. */
  lemma PlainExtensionParts()
    ensures Contains("Acme\\Blog\\Extension", Backslash)
    ensures ShortName("Acme\\Blog\\Extension") == "Extension"
    ensures Namespace("Acme\\Blog\\Extension") == "Acme\\Blog"
  {
    SplitClassName("Acme\\Blog", "Extension");
    assert "Acme\\Blog" + Backslash + "Extension" == "Acme\\Blog\\Extension";
    assert OccursAt("Acme\\Blog\\Extension", Backslash, 4);
  }

  /** Cutting `Extension` at its own occurrence leaves nothing. */
  lemma ExtensionCutsToNothing()
    ensures CutAtExtension("Extension") == ""
  {
    assert OccursAt("Extension", ExtensionWord, 0);
  }

  /** The last segment of `Acme\Blog` is `Blog`. */
  lemma AcmeBlogShortName()
    ensures ShortName("Acme\\Blog") == "Blog"
  {
    SplitClassName("Acme", "Blog");
    assert "Acme" + Backslash + "Blog" == "Acme\\Blog";
  }

  /** Worked example: a global class named `Extension` has no name at all (PHP `null`). */
  lemma GlobalExtensionHasNoName()
    ensures Name("Extension") == None
  {
    NoBackslash("Extension");
    assert OccursAt("Extension", ExtensionWord, 0);
    assert CutAtExtension("Extension") == "";
  }

  /**
    An extension instance: its class name, the two configurable
    locations, and the memo fields for name, vendor and namespace.
   */
  datatype Extension = Extension(
    className: string,
    baseDirectory: Option<string>,
    relativeUrl: Option<string>,
    name: Option<string>,
    vendor: Option<string>,
    namespace: Option<string>
  )

  /** A freshly constructed extension: nothing set, nothing memoised. */
  function NewExtension(cls: string): (e: Extension)
    ensures e.className == cls && Memoised(e)
  {
    Extension(cls, None, None, None, None, None)
  }

  /** Every memo field, when set, holds what the derivation computes. */
  predicate Memoised(e: Extension) {
    && (e.name.Some? ==> Name(e.className) == e.name)
    && (e.vendor.Some? ==> e.vendor.value == Vendor(e.className))
    && (e.namespace.Some? ==> e.namespace.value == Namespace(e.className))
  }

  /** `getNamespace` on an instance. */
  function GetNamespace(e: Extension): (r: (string, Extension))
    requires Memoised(e)
    ensures r.0 == Namespace(e.className)
    ensures Memoised(r.1) && r.1 == e.(namespace := Some(r.0))
  {
    match e.namespace
    case Some(ns) => (ns, e)
    case None =>
      var ns := Namespace(e.className);
      (ns, e.(namespace := Some(ns)))
  }

  /** `getName` on an instance; a `null` name is not memoised and is recomputed next time. */
  function GetName(e: Extension): (r: (Option<string>, Extension))
    requires Memoised(e)
    ensures r.0 == Name(e.className)
    ensures Memoised(r.1) && r.1 == e.(name := r.0)
  {
    match e.name
    case Some(n) => (Some(n), e)
    case None =>
      var n := Name(e.className);
      (n, e.(name := n))
  }

  /** `getVendor` on an instance; it memoises the namespace on the way. */
  function GetVendor(e: Extension): (r: (string, Extension))
    requires Memoised(e)
    ensures r.0 == Vendor(e.className)
    ensures Memoised(r.1) && r.1.className == e.className
    ensures r.1.vendor == Some(r.0)
    ensures r.1.baseDirectory == e.baseDirectory && r.1.relativeUrl == e.relativeUrl && r.1.name == e.name
  {
    match e.vendor
    case Some(v) => (v, e)
    case None =>
      var (ns, e1) := GetNamespace(e);
      var v := FirstSegment(ReplaceFirst(ns, BoltExtensionNamespace, ""));
      (v, e1.(vendor := Some(v)))
  }

  /** `getId` on an instance. */
  function GetId(e: Extension): (r: (string, Extension))
    requires Memoised(e)
    ensures r.0 == Id(e.className)
    ensures Memoised(r.1) && r.1.className == e.className
  {
    var (v, e1) := GetVendor(e);
    var (n, e2) := GetName(e1);
    (v + "/" + n.GetOr(""), e2)
  }

  /** `getDisplayName`: the name. */
  function GetDisplayName(e: Extension): (r: (Option<string>, Extension))
    requires Memoised(e)
    ensures r.0 == Name(e.className)
    ensures Memoised(r.1)
  {
    GetName(e)
  }

  /** Asking twice gives the first answer and changes nothing more. */
  lemma IdentityIsMemoised(e: Extension)
    requires Memoised(e)
    ensures GetName(GetName(e).1) == GetName(e)
    ensures GetNamespace(GetNamespace(e).1) == GetNamespace(e)
    ensures GetVendor(GetVendor(e).1) == GetVendor(e)
    ensures GetId(GetId(e).1).0 == GetId(e).0
  {
  }

  /** `setBaseDirectory`: returns the receiver, updated. */
  function SetBaseDirectory(e: Extension, dir: string): (r: Extension)
    ensures GetBaseDirectory(r) == Some(dir)
    ensures r.className == e.className && r.relativeUrl == e.relativeUrl
    ensures r.name == e.name && r.vendor == e.vendor && r.namespace == e.namespace
  {
    e.(baseDirectory := Some(dir))
  }

  function GetBaseDirectory(e: Extension): Option<string> {
    e.baseDirectory
  }

  /** `setRelativeUrl`: returns the receiver, updated. */
  function SetRelativeUrl(e: Extension, url: string): (r: Extension)
    ensures GetRelativeUrl(r) == Some(url)
    ensures r.className == e.className && r.baseDirectory == e.baseDirectory
    ensures r.name == e.name && r.vendor == e.vendor && r.namespace == e.namespace
  {
    e.(relativeUrl := Some(url))
  }

  function GetRelativeUrl(e: Extension): Option<string> {
    e.relativeUrl
  }

  /** The two setters touch different fields: either order gives the same extension. */
  lemma SettersCommute(e: Extension, dir: string, url: string)
    ensures SetRelativeUrl(SetBaseDirectory(e, dir), url) == SetBaseDirectory(SetRelativeUrl(e, url), dir)
    ensures Memoised(e) ==> Memoised(SetRelativeUrl(SetBaseDirectory(e, dir), url))
  {
  }
}
