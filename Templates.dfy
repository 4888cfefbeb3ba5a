/**
 * `renderTemplate` of pages.js: every `{word}` placeholder of a template
 * is replaced, left to right, by the value of `word` in a map.  A string
 * value is itself rendered with the same map and flag first; a number is
 * written in decimal; an absent key gives `undefined`, or, when
 * `skipUndefined` is set, leaves the placeholder as it was.  Pages are
 * rendered twice: once at load time with the package constants and
 * `skipUndefined`, then per request with the request's values.
 *
 * Rendering a string value recurses, so a value that refers back to
 * itself never finishes.  The model counts the nesting depth in `fuel`;
 * `None` stands for a rendering that does not finish within it.
 */
module Templates {
  import opened Js

  datatype Value = Str(s: string) | Num(n: int)

  /** `\w`: an ASCII letter, digit or underscore. */
  predicate IsWordChar(c: char) {
    ('a' <= c <= 'z') || ('A' <= c <= 'Z') || ('0' <= c <= '9') || c == '_'
  }

  /** A placeholder key: one or more word characters. */
  predicate IsKey(k: string) {
    k != [] && forall i :: 0 <= i < |k| ==> IsWordChar(k[i])
  }

  /** The number of word characters at the start of `s`. */
  function WordPrefixLen(s: string): (n: nat)
    ensures n <= |s|
    ensures forall i :: 0 <= i < n ==> IsWordChar(s[i])
    ensures n < |s| ==> !IsWordChar(s[n])
  {
    if s != [] && IsWordChar(s[0]) then 1 + WordPrefixLen(s[1..]) else 0
  }

  /** A match of `/{(\w+)}/` at the start of a string: the key and what follows. */
  datatype Match = Match(key: string, rest: string)

  function PlaceholderAt(s: string): (r: Option<Match>)
    ensures r.Some? ==> IsKey(r.value.key) && s == "{" + r.value.key + "}" + r.value.rest
  {
    if s == [] || s[0] != '{' then None
    else
      var n := WordPrefixLen(s[1..]);
      if n > 0 && n + 1 < |s| && s[n + 1] == '}' then
        assert s == "{" + s[1..n + 1] + "}" + s[n + 2..];
        Some(Match(s[1..n + 1], s[n + 2..]))
      else None
  }

  lemma {:induction false} WordPrefixLenOfKey(k: string, t: string)
    requires forall i :: 0 <= i < |k| ==> IsWordChar(k[i])
    requires t == [] || !IsWordChar(t[0])
    ensures WordPrefixLen(k + t) == |k|
  {
    if k == [] {
      assert k + t == t;
    } else {
      assert (k + t)[1..] == k[1..] + t;
      WordPrefixLenOfKey(k[1..], t);
    }
  }

  /** Every `{key}` is recognised as a placeholder. */
  lemma PlaceholderAtKey(k: string, rest: string)
    requires IsKey(k)
    ensures PlaceholderAt("{" + k + "}" + rest) == Some(Match(k, rest))
  {
    var s := "{" + k + "}" + rest;
    assert s[1..] == k + ("}" + rest);
    WordPrefixLenOfKey(k, "}" + rest);
    assert s[1..|k| + 1] == k;
    assert s[|k| + 2..] == rest;
  }

  /** A decimal digit. */
  function Digit(d: nat): char
    requires d < 10
  {
    "0123456789"[d]
  }

  /** The decimal text of a natural number. */
  function DecimalText(n: nat): (r: string)
    ensures r != []
    decreases n
  {
    if n < 10 then [Digit(n)] else DecimalText(n / 10) + [Digit(n % 10)]
  }

  /** `String(n)` for an integer-valued number. */
  function NumberText(n: int): string {
    if n < 0 then "-" + DecimalText(-n) else DecimalText(n)
  }

  /** `renderTemplate(string, value, skipUndefined)`, with at most `fuel` nested renders. */
  function Render(s: string, env: map<string, Value>, skip: bool, fuel: nat): Option<string>
    decreases fuel, |s|, 1
  {
    if s == [] then Some([])
    else match PlaceholderAt(s)
      case Some(m) =>
        var head := Substitute(m.key, env, skip, fuel);
        var tail := Render(m.rest, env, skip, fuel);
        if head.Some? && tail.Some? then Some(head.value + tail.value) else None
      case None =>
        var tail := Render(s[1..], env, skip, fuel);
        if tail.Some? then Some([s[0]] + tail.value) else None
  }

  /** Two partial renderings side by side: both must finish. */
  function Join(x: Option<string>, y: Option<string>): (r: Option<string>)
    ensures r.Some? <==> x.Some? && y.Some?
    ensures r.Some? ==> r.value == x.value + y.value
  {
    if x.Some? && y.Some? then Some(x.value + y.value) else None
  }

  lemma JoinAssoc(x: Option<string>, y: Option<string>, z: Option<string>)
    ensures Join(x, Join(y, z)) == Join(Join(x, y), z)
  {
    if x.Some? && y.Some? && z.Some? {
      assert x.value + (y.value + z.value) == (x.value + y.value) + z.value;
    }
  }

  /** The replacement callback for one placeholder. */
  function Substitute(key: string, env: map<string, Value>, skip: bool, fuel: nat): Option<string>
    decreases fuel, 0, 0
  {
    if key !in env then Some(if skip then "{" + key + "}" else "undefined")
    else match env[key]
      case Num(n) => Some(NumberText(n))
      case Str(v) => if fuel == 0 then None else Render(v, env, skip, fuel - 1)
  }

  /** Some position of `s` starts a `{word}` placeholder. */
  predicate HasPlaceholder(s: string) {
    exists i :: 0 <= i < |s| && PlaceholderAt(s[i..]).Some?
  }

  /** A template with no placeholder is returned unchanged. */
  lemma {:induction false} NoPlaceholderUnchanged(s: string, env: map<string, Value>, skip: bool, fuel: nat)
    requires !HasPlaceholder(s)
    ensures Render(s, env, skip, fuel) == Some(s)
  {
    if s != [] {
      assert s[0..] == s;
      assert !HasPlaceholder(s[1..]) by {
        forall i | 0 <= i < |s| - 1 ensures PlaceholderAt(s[1..][i..]).None? {
          assert s[1..][i..] == s[i + 1..];
        }
      }
      NoPlaceholderUnchanged(s[1..], env, skip, fuel);
      assert s == [s[0]] + s[1..];
    }
  }

  /** A lone placeholder renders as its replacement. */
  lemma RenderLonePlaceholder(k: string, env: map<string, Value>, skip: bool, fuel: nat)
    requires IsKey(k)
    ensures Render("{" + k + "}", env, skip, fuel) == Substitute(k, env, skip, fuel)
  {
    var s := "{" + k + "}";
    PlaceholderAtKey(k, []);
    assert s + [] == s;
    assert PlaceholderAt(s) == Some(Match(k, []));
    var head := Substitute(k, env, skip, fuel);
    if head.Some? {
      assert head.value + [] == head.value;
    }
  }

  /** An absent key renders as `undefined`, or verbatim under `skipUndefined`. */
  lemma UnknownKey(k: string, env: map<string, Value>, skip: bool, fuel: nat)
    requires IsKey(k) && k !in env
    ensures Render("{" + k + "}", env, skip, fuel) == Some(if skip then "{" + k + "}" else "undefined")
  {
    RenderLonePlaceholder(k, env, skip, fuel);
  }

  /** A string value is itself rendered, one level deeper, before insertion. */
  lemma StringValueRendered(k: string, env: map<string, Value>, skip: bool, fuel: nat)
    requires IsKey(k) && k in env && env[k].Str?
    ensures Render("{" + k + "}", env, skip, fuel + 1) == Render(env[k].s, env, skip, fuel)
  {
    RenderLonePlaceholder(k, env, skip, fuel + 1);
  }

  /** A number value is inserted as its decimal text. */
  lemma NumberValueInserted(k: string, env: map<string, Value>, skip: bool, fuel: nat)
    requires IsKey(k) && k in env && env[k].Num?
    ensures Render("{" + k + "}", env, skip, fuel) == Some(NumberText(env[k].n))
  {
    RenderLonePlaceholder(k, env, skip, fuel);
  }

  /** A value that refers to its own key never finishes rendering, at any depth. */
  lemma {:induction false} SelfReferenceDiverges(k: string, env: map<string, Value>, skip: bool, fuel: nat)
    requires IsKey(k) && k in env && env[k] == Str("{" + k + "}")
    ensures Render("{" + k + "}", env, skip, fuel) == None
  {
    RenderLonePlaceholder(k, env, skip, fuel);
    if fuel > 0 {
      SelfReferenceDiverges(k, env, skip, fuel - 1);
    }
  }

  /** The keys of the placeholders of `s`, as the scan finds them. */
  function Keys(s: string): set<string>
    decreases |s|
  {
    if s == [] then {}
    else match PlaceholderAt(s)
      case Some(m) => {m.key} + Keys(m.rest)
      case None => Keys(s[1..])
  }

  /**
   * A ranking that shows the string values do not refer to each other in
   * a cycle: every string value only names string-valued keys of lower rank.
   */
  ghost predicate Ranked(env: map<string, Value>, rank: map<string, nat>) {
    forall k :: k in env && env[k].Str? ==>
      k in rank && forall k2 :: k2 in Keys(env[k].s) && k2 in env && env[k2].Str? ==> k2 in rank && rank[k2] < rank[k]
  }

  /** Every string-valued key named in `s` ranks below `bound`. */
  ghost predicate RanksBelow(s: string, env: map<string, Value>, rank: map<string, nat>, bound: nat) {
    forall k :: k in Keys(s) && k in env && env[k].Str? ==> k in rank && rank[k] < bound
  }

  /** Without cycles among the string values, rendering finishes. */
  lemma {:induction false} RenderFinishes(s: string, env: map<string, Value>, skip: bool, rank: map<string, nat>, fuel: nat)
    requires Ranked(env, rank) && RanksBelow(s, env, rank, fuel)
    ensures Render(s, env, skip, fuel).Some?
    decreases fuel, |s|, 1
  {
    if s != [] {
      match PlaceholderAt(s)
      case Some(m) =>
        SubstituteFinishes(m.key, env, skip, rank, fuel);
        RenderFinishes(m.rest, env, skip, rank, fuel);
      case None =>
        RenderFinishes(s[1..], env, skip, rank, fuel);
    }
  }

  lemma {:induction false} SubstituteFinishes(k: string, env: map<string, Value>, skip: bool, rank: map<string, nat>, fuel: nat)
    requires Ranked(env, rank)
    requires k in env && env[k].Str? ==> k in rank && rank[k] < fuel
    ensures Substitute(k, env, skip, fuel).Some?
    decreases fuel, 0, 0
  {
    if k in env && env[k].Str? {
      RenderFinishes(env[k].s, env, skip, rank, fuel - 1);
    }
  }

  /**
   * The load-time pass: with `skipUndefined`, a template whose keys are all
   * absent from the map comes out unchanged, so its placeholders are left
   * for the per-request pass.
   */
  lemma {:induction false} SkipPassKeepsUnknown(s: string, env: map<string, Value>, fuel: nat)
    requires forall k :: k in Keys(s) ==> k !in env
    ensures Render(s, env, true, fuel) == Some(s)
  {
    if s != [] {
      match PlaceholderAt(s)
      case Some(m) =>
        SkipPassKeepsUnknown(m.rest, env, fuel);
      case None =>
        SkipPassKeepsUnknown(s[1..], env, fuel);
        assert s == [s[0]] + s[1..];
    }
  }

  /**
   * The two passes on a template that names only per-request keys: the
   * load-time pass leaves it alone, so the request pass sees the original.
   */
  lemma TwoPassRequestKeys(s: string, constants: map<string, Value>, options: map<string, Value>, fuel: nat)
    requires forall k :: k in Keys(s) ==> k !in constants
    ensures Render(s, constants, true, fuel) == Some(s)
    ensures Render(Render(s, constants, true, fuel).value, options, false, fuel) == Render(s, options, false, fuel)
  {
    SkipPassKeepsUnknown(s, constants, fuel);
  }

  /** Text before the first `{` is copied through unchanged and in order. */
  lemma {:induction false} TextBeforeBraceKept(a: string, s: string, env: map<string, Value>, skip: bool, fuel: nat)
    requires '{' !in a
    ensures Render(a + s, env, skip, fuel) ==
            (if Render(s, env, skip, fuel).Some? then Some(a + Render(s, env, skip, fuel).value) else None)
  {
    if a == [] {
      assert a + s == s;
      var r := Render(s, env, skip, fuel);
      if r.Some? {
        assert a + r.value == r.value;
      }
    } else {
      TextBeforeBraceKept(a[1..], s, env, skip, fuel);
      PlainHead(a, s, env, skip, fuel);
      JoinAssoc(Some([a[0]]), Some(a[1..]), Render(s, env, skip, fuel));
      assert [a[0]] + a[1..] == a;
    }
  }

  /** One plain character in front of `a[1..] + s` is copied through. */
  lemma PlainHead(a: string, s: string, env: map<string, Value>, skip: bool, fuel: nat)
    requires a != [] && a[0] != '{'
    ensures Render(a + s, env, skip, fuel) == Join(Some([a[0]]), Render(a[1..] + s, env, skip, fuel))
  {
    assert (a + s)[0] == a[0] && (a + s)[1..] == a[1..] + s;
  }

  /** A placeholder at the start of `a` is still the one found at the start of `a + t`. */
  lemma PlaceholderAtPrefix(a: string, t: string)
    requires PlaceholderAt(a).Some?
    ensures PlaceholderAt(a + t) == Some(Match(PlaceholderAt(a).value.key, PlaceholderAt(a).value.rest + t))
  {
    var m := PlaceholderAt(a).value;
    assert a + t == "{" + m.key + "}" + (m.rest + t);
    PlaceholderAtKey(m.key, m.rest + t);
  }

  /**
   * No match straddles a `{`: when `a` does not start with a placeholder,
   * neither does `a + t` for a `t` that starts with `{`.
   */
  lemma PlaceholderAtNoStraddle(a: string, t: string)
    requires a != [] && PlaceholderAt(a).None?
    requires t == [] || t[0] == '{'
    ensures PlaceholderAt(a + t).None?
  {
    if t == [] {
      assert a + t == a;
    } else if a[0] == '{' {
      var x := a[1..];
      var n := WordPrefixLen(x);
      assert (a + t)[1..] == x + t;
      if n < |x| {
        assert x == x[..n] + x[n..];
        assert x + t == x[..n] + (x[n..] + t);
        WordPrefixLenOfKey(x[..n], x[n..] + t);
        assert (a + t)[n + 1] == a[n + 1];
      } else {
        assert x[..n] == x;
        WordPrefixLenOfKey(x, t);
        assert (a + t)[n + 1] == t[0];
      }
    }
  }

  /**
   * Rendering splits at a `{`: the template `a + t` renders as `a` and
   * then `t`, and finishes only when both do.
   */
  lemma {:induction false} RenderConcat(a: string, t: string, env: map<string, Value>, skip: bool, fuel: nat)
    requires t == [] || t[0] == '{'
    ensures Render(a + t, env, skip, fuel) == Join(Render(a, env, skip, fuel), Render(t, env, skip, fuel))
    decreases |a|
  {
    if a == [] {
      assert a + t == t;
      var r := Render(t, env, skip, fuel);
      if r.Some? {
        assert [] + r.value == r.value;
      }
    } else if PlaceholderAt(a).Some? {
      var m := PlaceholderAt(a).value;
      PlaceholderAtPrefix(a, t);
      RenderConcat(m.rest, t, env, skip, fuel);
      JoinAssoc(Substitute(m.key, env, skip, fuel), Render(m.rest, env, skip, fuel), Render(t, env, skip, fuel));
    } else {
      PlaceholderAtNoStraddle(a, t);
      assert (a + t)[0] == a[0] && (a + t)[1..] == a[1..] + t;
      RenderConcat(a[1..], t, env, skip, fuel);
      JoinAssoc(Some([a[0]]), Render(a[1..], env, skip, fuel), Render(t, env, skip, fuel));
    }
  }

  /** A placeholder between two texts: each part renders on its own. */
  lemma RenderAround(a: string, k: string, b: string, env: map<string, Value>, skip: bool, fuel: nat)
    requires IsKey(k)
    ensures Render(a + ("{" + k + "}" + b), env, skip, fuel) ==
            Join(Render(a, env, skip, fuel), Join(Substitute(k, env, skip, fuel), Render(b, env, skip, fuel)))
  {
    RenderConcat(a, "{" + k + "}" + b, env, skip, fuel);
    PlaceholderAtKey(k, b);
  }

  /**
   * The two passes on a template that mixes package constants and a
   * per-request key `k`: the load-time pass renders the text around `k`
   * and keeps `{k}` itself, and the request pass then fills `{k}` from
   * the request's values.
   */
  lemma TwoPassMixed(a: string, k: string, b: string, constants: map<string, Value>, options: map<string, Value>,
                     fuel: nat, requestFuel: nat)
    requires IsKey(k) && k !in constants
    requires Render(a, constants, true, fuel).Some? && Render(b, constants, true, fuel).Some?
    ensures var pa := Render(a, constants, true, fuel).value;
            var pb := Render(b, constants, true, fuel).value;
            Render(a + ("{" + k + "}" + b), constants, true, fuel) == Some(pa + ("{" + k + "}" + pb))
            && Render(pa + ("{" + k + "}" + pb), options, false, requestFuel) ==
               Join(Render(pa, options, false, requestFuel),
                    Join(Substitute(k, options, false, requestFuel), Render(pb, options, false, requestFuel)))
  {
    var pa := Render(a, constants, true, fuel).value;
    var pb := Render(b, constants, true, fuel).value;
    RenderAround(a, k, b, constants, true, fuel);
    RenderAround(pa, k, pb, options, false, requestFuel);
  }
}
