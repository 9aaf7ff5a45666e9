/**
 Scoped key and tag names.  Each component is escaped with the percent-encoding of section 2.1 of
 RFC 3986, applied to "%" and ":" only, and the components are joined with literal separators.
 `Parse` takes any scoped name apart again, so no two names collide.
 */
module ScopedKeys {
  import opened Options

  function Replace(s: string, c: char, replacement: string): string {
    if s == "" then "" else (if s[0] == c then replacement else [s[0]]) + Replace(s[1..], c, replacement)
  }

  // "%" first, then ":".
  function EncodeComponent(component: string): string {
    Replace(Replace(component, '%', "%25"), ':', "%3A")
  }

  function ScopeKey(namespace: string, key: string, tenant: Option<string>): string {
    var ns, k := EncodeComponent(namespace), EncodeComponent(key);
    match tenant
    case Some(t) => if t != "" then ns + "::tenant:" + EncodeComponent(t) + "::" + k else ns + "::" + k
    case None => ns + "::" + k
  }

  function ScopeTag(namespace: string, tag: string, tenant: Option<string>): string {
    var ns, t' := EncodeComponent(namespace), EncodeComponent(tag);
    match tenant
    case Some(t) => if t != "" then ns + "::tenant:" + EncodeComponent(t) + "::tag:" + t' else ns + "::tag:" + t'
    case None => ns + "::tag:" + t'
  }

  function ScopePrefix(namespace: string, tenant: Option<string>): string {
    var ns := EncodeComponent(namespace);
    match tenant
    case Some(t) => if t != "" then ns + "::tenant:" + EncodeComponent(t) else ns
    case None => ns
  }

  // ---- Decoding one component ----

  function DecodeComponent(s: string): string {
    if s == "" then ""
    else if |s| >= 3 && s[..3] == "%25" then "%" + DecodeComponent(s[3..])
    else if |s| >= 3 && s[..3] == "%3A" then ":" + DecodeComponent(s[3..])
    else [s[0]] + DecodeComponent(s[1..])
  }

  // The two passes amount to escaping one character at a time.
  function EncodeChar(c: char): string {
    if c == '%' then "%25" else if c == ':' then "%3A" else [c]
  }

  lemma ReplaceHead(x: char, rest: string, c: char, replacement: string)
    ensures Replace([x] + rest, c, replacement) == (if x == c then replacement else [x]) + Replace(rest, c, replacement)
  {
    assert ([x] + rest)[1..] == rest;
  }

  lemma EncodeHead(s: string)
    requires s != ""
    ensures EncodeComponent(s) == EncodeChar(s[0]) + EncodeComponent(s[1..])
  {
    var first := Replace(s[1..], '%', "%25");
    if s[0] == '%' {
      ReplaceHead('%', ['2'] + (['5'] + first), ':', "%3A");
      ReplaceHead('2', ['5'] + first, ':', "%3A");
      ReplaceHead('5', first, ':', "%3A");
      assert "%25" + first == ['%'] + (['2'] + (['5'] + first));
    } else {
      ReplaceHead(s[0], first, ':', "%3A");
    }
  }

  lemma {:induction false} EncodedHasNoColon(s: string)
    ensures ':' !in EncodeComponent(s)
  {
    if s == "" {
    } else {
      EncodeHead(s);
      EncodedHasNoColon(s[1..]);
    }
  }

  lemma {:induction false} DecodeEncode(s: string)
    ensures DecodeComponent(EncodeComponent(s)) == s
  {
    if s == "" {
    } else {
      EncodeHead(s);
      DecodeEncode(s[1..]);
      var e, rest := EncodeComponent(s), EncodeComponent(s[1..]);
      if s[0] == '%' || s[0] == ':' {
        assert e[..3] == EncodeChar(s[0]) && e[3..] == rest;
      } else {
        assert e[0] == s[0] && e[1..] == rest;
      }
    }
  }

  // A component without "%" and ":" stays as it is, so such names read as documented.
  lemma {:induction false} PlainComponentUnchanged(s: string)
    requires '%' !in s && ':' !in s
    ensures EncodeComponent(s) == s
  {
    if s == "" {
    } else {
      EncodeHead(s);
      PlainComponentUnchanged(s[1..]);
    }
  }

  lemma PlainNamesReadAsDocumented(namespace: string, tenant: string, key: string)
    requires forall s :: s in {namespace, tenant, key} ==> '%' !in s && ':' !in s
    requires tenant != ""
    ensures ScopeKey(namespace, key, Some(tenant)) == namespace + "::tenant:" + tenant + "::" + key
    ensures ScopeKey(namespace, key, None) == ScopeKey(namespace, key, Some("")) == namespace + "::" + key
    ensures ScopeTag(namespace, key, Some(tenant)) == ScopePrefix(namespace, Some(tenant)) + "::tag:" + key
    ensures ScopeTag(namespace, key, None) == ScopePrefix(namespace, None) + "::tag:" + key
  {
    PlainComponentUnchanged(namespace);
    PlainComponentUnchanged(tenant);
    PlainComponentUnchanged(key);
  }

  // ---- Taking a name apart at its colons ----

  function Split(s: string): (parts: seq<string>)
    ensures parts != []
  {
    if s == "" then [""]
    else
      var rest := Split(s[1..]);
      if s[0] == ':' then [""] + rest else [[s[0]] + rest[0]] + rest[1..]
  }

  lemma {:induction false} SplitAfter(part: string, rest: string)
    requires ':' !in part
    ensures Split(part + ":" + rest) == [part] + Split(rest)
  {
    if part == "" {
      assert (":" + rest)[1..] == rest && part + ":" + rest == ":" + rest;
    } else {
      assert (part + ":" + rest)[1..] == part[1..] + ":" + rest;
      SplitAfter(part[1..], rest);
      assert [part[0]] + part[1..] == part;
    }
  }

  lemma {:induction false} SplitLast(part: string)
    requires ':' !in part
    ensures Split(part) == [part]
  {
    if part == "" {
    } else {
      SplitLast(part[1..]);
      assert [part[0]] + part[1..] == part;
    }
  }

  datatype Name = KeyName(namespace: string, tenant: Option<string>, key: string)
                | TagName(namespace: string, tenant: Option<string>, tag: string)

  function Scoped(name: Name): string {
    match name
    case KeyName(namespace, tenant, key) => ScopeKey(namespace, key, tenant)
    case TagName(namespace, tenant, tag) => ScopeTag(namespace, tag, tenant)
  }

  // An empty tenant is no tenant.
  function Canonical(tenant: Option<string>): Option<string> {
    if tenant == Some("") then None else tenant
  }

  function Meaning(name: Name): Name {
    match name
    case KeyName(namespace, tenant, key) => KeyName(namespace, Canonical(tenant), key)
    case TagName(namespace, tenant, tag) => TagName(namespace, Canonical(tenant), tag)
  }

  function Parse(s: string): Option<Name> {
    var parts := Split(s);
    if |parts| == 3 then
      Some(KeyName(DecodeComponent(parts[0]), None, DecodeComponent(parts[2])))
    else if |parts| == 4 then
      Some(TagName(DecodeComponent(parts[0]), None, DecodeComponent(parts[3])))
    else if |parts| == 6 then
      Some(KeyName(DecodeComponent(parts[0]), Some(DecodeComponent(parts[3])), DecodeComponent(parts[5])))
    else if |parts| == 7 then
      Some(TagName(DecodeComponent(parts[0]), Some(DecodeComponent(parts[3])), DecodeComponent(parts[6])))
    else None
  }

  // `parts` with a colon between each two.
  function Join(parts: seq<string>): string
    requires parts != []
  {
    if |parts| == 1 then parts[0] else parts[0] + ":" + Join(parts[1..])
  }

  lemma {:induction false} SplitJoin(parts: seq<string>)
    requires parts != [] && forall part :: part in parts ==> ':' !in part
    ensures Split(Join(parts)) == parts
  {
    if |parts| == 1 {
      SplitLast(parts[0]);
    } else {
      SplitJoin(parts[1..]);
      SplitAfter(parts[0], Join(parts[1..]));
    }
  }

  lemma {:induction false} JoinAppend(parts: seq<string>, last: string)
    requires parts != []
    ensures Join(parts + [last]) == Join(parts) + ":" + last
  {
    if |parts| == 1 {
      assert Join([last]) == last && (parts + [last])[1..] == [last];
    } else {
      assert (parts + [last])[1..] == parts[1..] + [last];
      JoinAppend(parts[1..], last);
    }
  }

  function PrefixParts(namespace: string, tenant: Option<string>): seq<string> {
    match Canonical(tenant)
    case None => [EncodeComponent(namespace)]
    case Some(t) => [EncodeComponent(namespace), "", "tenant", EncodeComponent(t)]
  }

  lemma JoinTenant(ns: string, t: string)
    ensures Join([ns, "", "tenant", t]) == ns + "::tenant:" + t
  {
    JoinAppend([ns], "");
    JoinAppend([ns, ""], "tenant");
    JoinAppend([ns, "", "tenant"], t);
    assert [ns] + [""] == [ns, ""];
    assert [ns, ""] + ["tenant"] == [ns, "", "tenant"];
    assert [ns, "", "tenant"] + [t] == [ns, "", "tenant", t];
    assert ns + ":" + "" + ":" + "tenant" + ":" + t == ns + "::tenant:" + t;
  }

  lemma JoinPrefix(namespace: string, tenant: Option<string>)
    ensures Join(PrefixParts(namespace, tenant)) == ScopePrefix(namespace, tenant)
    ensures forall part :: part in PrefixParts(namespace, tenant) ==> ':' !in part
  {
    EncodedHasNoColon(namespace);
    if Canonical(tenant).Some? {
      EncodedHasNoColon(tenant.value);
      JoinTenant(EncodeComponent(namespace), EncodeComponent(tenant.value));
    }
  }

  lemma ScopeKeyText(namespace: string, key: string, tenant: Option<string>)
    ensures ScopeKey(namespace, key, tenant) == ScopePrefix(namespace, tenant) + ":" + "" + ":" + EncodeComponent(key)
  {
    assert "::" == ":" + "" + ":";
  }

  lemma JoinKey(prefix: seq<string>, k: string)
    requires prefix != []
    ensures Join(prefix + ["", k]) == Join(prefix) + ":" + "" + ":" + k
  {
    JoinAppend(prefix, "");
    JoinAppend(prefix + [""], k);
    assert prefix + [""] + [k] == prefix + ["", k];
  }

  lemma PartsOfKey(namespace: string, key: string, tenant: Option<string>)
    ensures Split(ScopeKey(namespace, key, tenant)) == PrefixParts(namespace, tenant) + ["", EncodeComponent(key)]
  {
    var prefix, k := PrefixParts(namespace, tenant), EncodeComponent(key);
    EncodedHasNoColon(key);
    JoinPrefix(namespace, tenant);
    JoinKey(prefix, k);
    ScopeKeyText(namespace, key, tenant);
    SplitJoin(prefix + ["", k]);
  }

  lemma ScopeTagText(namespace: string, tag: string, tenant: Option<string>)
    ensures ScopeTag(namespace, tag, tenant)
            == ScopePrefix(namespace, tenant) + ":" + "" + ":" + "tag" + ":" + EncodeComponent(tag)
  {
    assert "::tag:" == ":" + "" + ":" + "tag" + ":";
  }

  lemma JoinTag(prefix: seq<string>, g: string)
    requires prefix != []
    ensures Join(prefix + ["", "tag", g]) == Join(prefix) + ":" + "" + ":" + "tag" + ":" + g
  {
    JoinAppend(prefix, "");
    JoinAppend(prefix + [""], "tag");
    JoinAppend(prefix + [""] + ["tag"], g);
    assert prefix + [""] + ["tag"] + [g] == prefix + ["", "tag", g];
  }

  lemma PartsOfTag(namespace: string, tag: string, tenant: Option<string>)
    ensures Split(ScopeTag(namespace, tag, tenant))
            == PrefixParts(namespace, tenant) + ["", "tag", EncodeComponent(tag)]
  {
    var prefix, g := PrefixParts(namespace, tenant), EncodeComponent(tag);
    EncodedHasNoColon(tag);
    JoinPrefix(namespace, tenant);
    JoinTag(prefix, g);
    ScopeTagText(namespace, tag, tenant);
    SplitJoin(prefix + ["", "tag", g]);
  }

  lemma ParseKey(namespace: string, key: string, tenant: Option<string>)
    ensures Parse(ScopeKey(namespace, key, tenant)) == Some(KeyName(namespace, Canonical(tenant), key))
  {
    PartsOfKey(namespace, key, tenant);
    DecodeEncode(namespace);
    DecodeEncode(key);
    if tenant.Some? {
      DecodeEncode(tenant.value);
    }
  }

  lemma ParseTag(namespace: string, tag: string, tenant: Option<string>)
    ensures Parse(ScopeTag(namespace, tag, tenant)) == Some(TagName(namespace, Canonical(tenant), tag))
  {
    PartsOfTag(namespace, tag, tenant);
    DecodeEncode(namespace);
    DecodeEncode(tag);
    if tenant.Some? {
      DecodeEncode(tenant.value);
    }
  }

  lemma ParseScoped(name: Name)
    ensures Parse(Scoped(name)) == Some(Meaning(name))
  {
    match name
    case KeyName(namespace, tenant, key) => ParseKey(namespace, key, tenant);
    case TagName(namespace, tenant, tag) => ParseTag(namespace, tag, tenant);
  }

  // Keys and tags of all namespaces and tenants have pairwise different names.
  lemma ScopedInjective(a: Name, b: Name)
    ensures Scoped(a) == Scoped(b) <==> Meaning(a) == Meaning(b)
  {
    ParseScoped(a);
    ParseScoped(b);
  }

  // A tag index is told the prefix and the full key; the prefix alone identifies namespace and tenant.
  lemma PrefixInjective(namespace: string, tenant: Option<string>, namespace': string, tenant': Option<string>)
    ensures ScopePrefix(namespace, tenant) == ScopePrefix(namespace', tenant')
            <==> namespace == namespace' && Canonical(tenant) == Canonical(tenant')
  {
    ScopedInjective(KeyName(namespace, tenant, ""), KeyName(namespace', tenant', ""));
    assert ScopeKey(namespace, "", tenant) == ScopePrefix(namespace, tenant) + "::";
    assert ScopeKey(namespace', "", tenant') == ScopePrefix(namespace', tenant') + "::";
    if ScopeKey(namespace, "", tenant) == ScopeKey(namespace', "", tenant') {
      var p, p' := ScopePrefix(namespace, tenant), ScopePrefix(namespace', tenant');
      assert (p + "::")[..|p|] == p && (p' + "::")[..|p'|] == p';
    }
  }

  // ---- Single-flight slots ----

  function RefreshSlot(scopedKey: string): string {
    "refresh:" + scopedKey
  }

  lemma SplitRefreshSlot(name: Name)
    ensures Split(RefreshSlot(Scoped(name))) == ["refresh"] + Split(Scoped(name))
  {
    SplitAfter("refresh", Scoped(name));
    assert RefreshSlot(Scoped(name)) == "refresh" + ":" + Scoped(name);
  }

  lemma PartsOfKeyName(name: Name)
    requires name.KeyName?
    ensures |Split(Scoped(name))| in {3, 6}
  {
    PartsOfKey(name.namespace, name.key, name.tenant);
  }

  // A background refresh never shares a slot with a foreground load, and different keys never
  // share a slot.
  lemma SlotsDisjoint(a: Name, b: Name)
    requires a.KeyName? && b.KeyName?
    ensures Scoped(a) != RefreshSlot(Scoped(b))
    ensures RefreshSlot(Scoped(a)) == RefreshSlot(Scoped(b)) <==> Meaning(a) == Meaning(b)
  {
    PartsOfKeyName(a);
    PartsOfKeyName(b);
    SplitRefreshSlot(b);
    assert |Split(Scoped(a))| != |Split(RefreshSlot(Scoped(b)))|;
    ScopedInjective(a, b);
    assert RefreshSlot(Scoped(a))[8..] == Scoped(a) && RefreshSlot(Scoped(b))[8..] == Scoped(b);
  }
}
