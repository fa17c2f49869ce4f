/** Translation lookup: a dotted key walked through the nested translation
    object, falling back to the key itself, and `{name}` placeholder
    interpolation as the global regular-expression replace `/\{(\w+)\}/g`
    performs it. */
module Translation {
  import opened Wrappers
  import opened Json
  import opened Strings

  /** The value reached by walking `keys` from `v`: each step needs an
      object holding the key. */
  function Walk(v: JsonValue, keys: seq<string>): (r: Option<JsonValue>)
    decreases |keys|
  {
    if |keys| == 0 then Some(v)
    else if v.JObject? && keys[0] in v.fields then Walk(v.fields[keys[0]], keys[1..])
    else None
  }

  /** Walking a longer key is walking its prefix, then the rest. */
  lemma {:induction false} WalkAppend(v: JsonValue, a: seq<string>, b: seq<string>)
    ensures Walk(v, a + b) == (match Walk(v, a) case None => None case Some(u) => Walk(u, b))
    decreases |a|
  {
    if |a| > 0 {
      assert (a + b)[0] == a[0];
      assert (a + b)[1..] == a[1..] + b;
      if v.JObject? && a[0] in v.fields {
        WalkAppend(v.fields[a[0]], a[1..], b);
      }
    } else {
      assert a + b == b;
    }
  }

  // ------------------------------------------------------------ interpolate

  /** Length of the run of `\w` characters at the start of `s`. */
  function WordRun(s: string): (n: nat)
    ensures n <= |s|
    ensures forall i :: 0 <= i < n ==> IsWordChar(s[i])
    ensures n < |s| ==> !IsWordChar(s[n])
  {
    if |s| == 0 || !IsWordChar(s[0]) then 0 else 1 + WordRun(s[1..])
  }

  /** `p` is one match of `\{(\w+)\}`: `{`, one or more word characters,
      `}`. */
  predicate IsPlaceholder(p: string)
  {
    && |p| >= 3 && p[0] == '{' && p[|p| - 1] == '}'
    && forall k :: 1 <= k < |p| - 1 ==> IsWordChar(p[k])
  }

  /** The length of the placeholder `{name}` at the start of `s`, if one is
      there: `{`, one or more word characters, `}`. */
  function PlaceholderAt(s: string): (n: nat)
    ensures n == 0 || (3 <= n <= |s| && s[0] == '{' && s[n - 1] == '}')
    ensures n > 0 ==> forall k :: 1 <= k < n - 1 ==> IsWordChar(s[k])
  {
    if |s| == 0 || s[0] != '{' then 0
    else
      var w := WordRun(s[1..]);
      if w >= 1 && w + 1 < |s| && s[w + 1] == '}' then w + 2 else 0
  }

  /** A prefix of `s` is a placeholder exactly when it is the one
      `PlaceholderAt` measures: `0` means no prefix matches at all. */
  lemma PlaceholderAtIsTheMatch(s: string, m: nat)
    requires m <= |s|
    ensures IsPlaceholder(s[..m]) <==> (m > 0 && m == PlaceholderAt(s))
  {
    var n := PlaceholderAt(s);
    if IsPlaceholder(s[..m]) {
      var p := s[..m];
      assert s[0] == p[0] && s[m - 1] == p[m - 1];
      var t := s[1..];
      assert !IsWordChar('}');
      assert t[m - 2] == s[m - 1];
      assert forall k :: 0 <= k < m - 2 ==> t[k] == p[k + 1];
      WordRunOf(t[..m - 2], t[m - 2..]);
      assert t[..m - 2] + t[m - 2..] == t;
    }
    if m > 0 && m == n {
      assert s[..m][m - 1] == s[m - 1];
      forall k | 1 <= k < m - 1 ensures IsWordChar(s[..m][k]) {
        assert s[..m][k] == s[k];
      }
    }
  }

  /** `template.replace(/\{(\w+)\}/g, …)`: scanning left to right, each
      placeholder whose name has a parameter is replaced by it; other
      placeholders and all other text are kept. */
  function Interpolate(s: string, params: map<string, string>): string
    decreases |s|
  {
    if |s| == 0 then ""
    else
      var n := PlaceholderAt(s);
      if n == 0 then [s[0]] + Interpolate(s[1..], params)
      else
        var name := s[1..n - 1];
        (if name in params then params[name] else s[..n]) + Interpolate(s[n..], params)
  }

  /** A `{` that does not open a placeholder (`{}`, `{a b}`, a `{` at the
      end) is copied and scanning goes on with the next character. */
  lemma InterpolateStrayBrace(b: string, params: map<string, string>)
    requires forall m :: 0 <= m <= |b| + 1 ==> !IsPlaceholder(("{" + b)[..m])
    ensures Interpolate("{" + b, params) == "{" + Interpolate(b, params)
  {
    var s := "{" + b;
    var n := PlaceholderAt(s);
    if n > 0 {
      PlaceholderAtIsTheMatch(s, n);
      assert false;
    }
    assert s[1..] == b;
  }

  /** `{}` and `{a b}` are no placeholders and come back verbatim. */
  lemma StrayBracesKept(params: map<string, string>)
    ensures Interpolate("{}", params) == "{}"
    ensures Interpolate("{a b}", params) == "{a b}"
  {
    assert PlaceholderAt("{}") == 0;
    assert "{}"[1..] == "}";
    InterpolatePlainPrefix("}", "", params);
    assert "}" + "" == "}";
    var s := "{a b}";
    assert s[1..] == "a b}";
    assert WordRun("a b}") == 1 by {
      WordRunOf("a", " b}");
      assert "a" + " b}" == "a b}";
    }
    assert PlaceholderAt(s) == 0;
    InterpolatePlainPrefix("a b}", "", params);
    assert "a b}" + "" == "a b}";
  }

  /** With no parameters the template comes back unchanged. */
  lemma {:induction false} InterpolateNoParams(s: string)
    ensures Interpolate(s, map[]) == s
    decreases |s|
  {
    if |s| > 0 {
      var n := PlaceholderAt(s);
      if n == 0 {
        InterpolateNoParams(s[1..]);
        assert s == [s[0]] + s[1..];
      } else {
        InterpolateNoParams(s[n..]);
        assert s == s[..n] + s[n..];
      }
    }
  }

  /** Text without `{` is copied as is, and is left behind before what
      follows it. */
  lemma {:induction false} InterpolatePlainPrefix(a: string, b: string, params: map<string, string>)
    requires '{' !in a
    ensures Interpolate(a + b, params) == a + Interpolate(b, params)
    decreases |a|
  {
    if |a| > 0 {
      assert a[0] in a;
      assert (a + b)[0] == a[0];
      assert (a + b)[1..] == a[1..] + b;
      assert PlaceholderAt(a + b) == 0;
      InterpolatePlainPrefix(a[1..], b, params);
      assert a == [a[0]] + a[1..];
    } else {
      assert a + b == b;
    }
  }

  /** A placeholder `{name}` at the front is replaced by its parameter, or
      kept verbatim when there is none, and scanning resumes after it. */
  lemma InterpolatePlaceholder(name: string, b: string, params: map<string, string>)
    requires |name| >= 1 && forall i :: 0 <= i < |name| ==> IsWordChar(name[i])
    ensures Interpolate("{" + name + "}" + b, params) ==
      (if name in params then params[name] else "{" + name + "}") + Interpolate(b, params)
  {
    var s := "{" + name + "}" + b;
    assert s[1..] == name + ("}" + b);
    assert WordRun(s[1..]) == |name| by {
      WordRunOf(name, "}" + b);
    }
    assert s[1..|name| + 1] == name;
    assert s[..|name| + 2] == "{" + name + "}";
    assert s[|name| + 2..] == b;
  }

  lemma {:induction false} WordRunOf(w: string, rest: string)
    requires forall i :: 0 <= i < |w| ==> IsWordChar(w[i])
    requires |rest| == 0 || !IsWordChar(rest[0])
    ensures WordRun(w + rest) == |w|
    decreases |w|
  {
    if |w| > 0 {
      assert (w + rest)[1..] == w[1..] + rest;
      WordRunOf(w[1..], rest);
    } else {
      assert w + rest == rest;
    }
  }

  // ------------------------------------------------------------------ t

  /** `t(key, params)`: the string found at the dotted key, interpolated
      when parameters are given; the key itself when a segment is missing,
      a step meets a non-object, or the value found is not a string. */
  function Translate(translations: JsonValue, key: string, params: Option<map<string, string>>): (r: string)
    ensures (match Walk(translations, Split(key, '.')) case Some(JString(_)) => false case _ => true) ==> r == key
  {
    match Walk(translations, Split(key, '.'))
    case Some(JString(found)) =>
      (match params case None => found case Some(p) => Interpolate(found, p))
    case _ => key
  }

  /** Without parameters the string found is returned verbatim; with
      parameters it is interpolated; a missing key gives the key. */
  lemma TranslateSpec(translations: JsonValue, key: string, params: Option<map<string, string>>)
    ensures var found := Walk(translations, Split(key, '.'));
      && (found.Some? && found.value.JString? && params.None? ==> Translate(translations, key, params) == found.value.s)
      && (found.Some? && found.value.JString? && params.Some? ==>
            Translate(translations, key, params) == Interpolate(found.value.s, params.value))
      && (found.None? ==> Translate(translations, key, params) == key)
  {
  }

  /** A nested object holding `{ a: { b: s } }` translates "a.b" to `s`,
      and an empty parameter object changes nothing. */
  lemma TranslateNested(a: string, b: string, s: string, inner: map<string, JsonValue>, outer: map<string, JsonValue>)
    requires '.' !in a && '.' !in b
    ensures var tr := JObject(outer[a := JObject(inner[b := JString(s)])]);
      && Translate(tr, a + "." + b, None) == s
      && Translate(tr, a + "." + b, Some(map[])) == s
  {
    JoinSplit([a, b], '.');
    InterpolateNoParams(s);
    var tr := JObject(outer[a := JObject(inner[b := JString(s)])]);
    var mid := JObject(inner[b := JString(s)]);
    assert Walk(mid, [b]) == Some(JString(s)) by {
      assert [b][1..] == [];
    }
    assert Walk(tr, [a, b]) == Walk(mid, [b]) by {
      assert [a, b][1..] == [b];
    }
  }

  /** A key whose first segment is missing translates to itself, whatever
      the parameters. */
  lemma MissingSegmentGivesKey(translations: JsonValue, key: string, params: Option<map<string, string>>)
    requires translations.JObject? && PrefixBefore(key, '.') !in translations.fields
    ensures Translate(translations, key, params) == key
  {
  }
}
