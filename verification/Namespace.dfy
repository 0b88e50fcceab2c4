/** Collision-safe identities: prefixes, and the names and URIs built from them.
    A string is a sequence of code points; a valid name holds only ASCII, so its
    length in characters is its length in bytes. */
module Namespace {
  import opened Wrappers

  datatype Error = InvalidPrefix(prefix: string) | InvalidName(name: string) | TooLong(name: string)
    | NoValidCharacter(component: string)

  const MAX_FEATURE_NAME_LENGTH := 128

  predicate ValidRune(r: char) {
    'a' <= r <= 'z' || 'A' <= r <= 'Z' || '0' <= r <= '9' || r == '_' || r == '-' || r == '.'
  }

  predicate ValidPart(value: string) {
    value != "" && forall r :: r in value ==> ValidRune(r)
  }

  method ValidatePart(value: string) returns (valid: bool)
    ensures valid <==> ValidPart(value)
  {
    if value == "" {
      return false;
    }
    for i := 0 to |value|
      invariant forall j :: 0 <= j < i ==> ValidRune(value[j])
    {
      if !ValidRune(value[i]) {
        assert value[i] in value;
        return false;
      }
    }
    return true;
  }

  // ---- Prefixes ----

  function Lower(r: char): char {
    if 'A' <= r <= 'Z' then r - 'A' + 'a' else r
  }

  /** The sanitized text so far, and whether it ends with a separator of ours. */
  function Sanitized(name: string): (string, bool) {
    if |name| == 0 then ("", false)
    else
      var (text, separated) := Sanitized(name[..|name| - 1]);
      var r := name[|name| - 1];
      if ValidRune(r) then (text + [Lower(r)], false)
      else if text != "" && !separated then (text + "_", true)
      else (text, separated)
  }

  function TrimLeft(s: string): string {
    if s != "" && s[0] == '_' then TrimLeft(s[1..]) else s
  }

  function TrimRight(s: string): string {
    if s != "" && s[|s| - 1] == '_' then TrimRight(s[..|s| - 1]) else s
  }

  function Trim(s: string): string {
    TrimRight(TrimLeft(s))
  }

  function Prefix(component: string, configured: string): Result<string, Error> {
    if configured != "" then
      if ValidPart(configured) then Ok(configured) else Err(InvalidPrefix(configured))
    else if Trim(Sanitized(component).0) == "" then Err(NoValidCharacter(component))
    else Ok(Trim(Sanitized(component).0))
  }

  method BuildPrefix(component: string, configured: string) returns (prefix: Result<string, Error>)
    ensures prefix == Prefix(component, configured)
  {
    if configured != "" {
      var valid := ValidatePart(configured);
      return if valid then Ok(configured) else Err(InvalidPrefix(configured));
    }
    var text := "";
    var lastSeparator := false;
    for i := 0 to |component|
      invariant (text, lastSeparator) == Sanitized(component[..i])
    {
      assert component[..i + 1][..i] == component[..i];
      if ValidRune(component[i]) {
        text := text + [Lower(component[i])];
        lastSeparator := false;
        continue;
      }
      if text != "" && !lastSeparator {
        text := text + "_";
        lastSeparator := true;
      }
    }
    assert component[..|component|] == component;
    var trimmed := Trim(text);
    return if trimmed == "" then Err(NoValidCharacter(component)) else Ok(trimmed);
  }

  const LETTERS := "abcdefghijklmnopqrstuvwxyz"
  const CAPITALS := "ABCDEFGHIJKLMNOPQRSTUVWXYZ"
  const MARKS := "0123456789_-."

  /** The valid characters, one by one. */
  lemma RunesExactly(r: char)
    ensures ValidRune(r) <==> r in LETTERS || r in CAPITALS || r in MARKS
    ensures Lower(r) == r <==> r !in CAPITALS
    ensures forall i :: 0 <= i < |CAPITALS| && r == CAPITALS[i] ==> Lower(r) == LETTERS[i]
  {
    LettersInOrder(r);
    CapitalsInOrder(r);
    hide LETTERS, CAPITALS;
    if '0' <= r <= '9' { assert MARKS[(r - '0') as int] == r; }
  }

  lemma LettersInOrder(r: char)
    ensures |LETTERS| == 26 && forall i :: 0 <= i < 26 ==> LETTERS[i] as int == 'a' as int + i
    ensures r in LETTERS <==> 'a' <= r <= 'z'
  {
    if 'a' <= r <= 'z' { assert LETTERS[(r - 'a') as int] == r; }
  }

  lemma CapitalsInOrder(r: char)
    ensures |CAPITALS| == 26 && forall i :: 0 <= i < 26 ==> CAPITALS[i] as int == 'A' as int + i
    ensures r in CAPITALS <==> 'A' <= r <= 'Z'
  {
    if 'A' <= r <= 'Z' { assert CAPITALS[(r - 'A') as int] == r; }
  }

  /** What the i-th character of a component's name contributes: itself in lower case, or
      an underscore where a run of valid characters ends. */
  function Piece(name: string, i: nat): string
    requires i < |name|
  {
    if ValidRune(name[i]) then [Lower(name[i])]
    else if i > 0 && ValidRune(name[i - 1]) then "_"
    else ""
  }

  function Pieces(name: string, n: nat): string
    requires n <= |name|
  {
    if n == 0 then "" else Pieces(name, n - 1) + Piece(name, n - 1)
  }

  /** Sanitizing needs no memory but the previous character. */
  lemma {:induction false} SanitizedExactly(name: string, n: nat)
    requires n <= |name|
    ensures Sanitized(name[..n]).0 == Pieces(name, n)
    ensures Sanitized(name[..n]).1 <==> n > 0 && Pieces(name, n) != "" && !ValidRune(name[n - 1])
    ensures n > 0 && ValidRune(name[n - 1]) ==> Pieces(name, n) != ""
  {
    if n > 0 {
      SanitizedExactly(name, n - 1);
      assert name[..n][..n - 1] == name[..n - 1];
    }
  }

  /** Trimming takes away underscores, and exactly those at the ends. */
  lemma TrimExactly(s: string) returns (i: nat, j: nat)
    ensures i <= j <= |s| && Trim(s) == s[i..j]
    ensures forall k :: 0 <= k < i || j <= k < |s| ==> s[k] == '_'
    ensures i < j ==> s[i] != '_' && s[j - 1] != '_'
  {
    i := LeftExactly(s);
    var n := RightExactly(s[i..]);
    j := i + n;
  }

  /** Which prefix a component without a configured one gets: the pieces of its name,
      without the underscores at the ends, unless nothing else is left. */
  lemma DerivedExactly(component: string) returns (i: nat, j: nat)
    ensures var text := Pieces(component, |component|);
      && i <= j <= |text| && (forall k :: 0 <= k < i || j <= k < |text| ==> text[k] == '_')
      && (i < j ==> text[i] != '_' && text[j - 1] != '_')
      && Prefix(component, "") == if i < j then Ok(text[i..j]) else Err(NoValidCharacter(component))
  {
    SanitizedExactly(component, |component|);
    assert component[..|component|] == component;
    i, j := TrimExactly(Pieces(component, |component|));
  }

  lemma {:induction false} LeftExactly(s: string) returns (i: nat)
    ensures i <= |s| && TrimLeft(s) == s[i..] && (i < |s| ==> s[i] != '_') && forall k :: 0 <= k < i ==> s[k] == '_'
  {
    if s != "" && s[0] == '_' {
      i := LeftExactly(s[1..]);
      i := i + 1;
      assert forall k :: 1 <= k < i ==> s[k] == s[1..][k - 1];
    } else {
      i := 0;
    }
  }

  lemma {:induction false} RightExactly(s: string) returns (j: nat)
    ensures j <= |s| && TrimRight(s) == s[..j] && (j > 0 ==> s[j - 1] != '_')
    ensures forall k :: j <= k < |s| ==> s[k] == '_'
  {
    if s != "" && s[|s| - 1] == '_' {
      j := RightExactly(s[..|s| - 1]);
    } else {
      j := |s|;
    }
  }

  predicate Clean(s: string) {
    forall r :: r in s ==> ValidRune(r) && Lower(r) == r
  }

  lemma {:induction false} SanitizedClean(name: string)
    ensures Clean(Sanitized(name).0)
  {
    if |name| > 0 { SanitizedClean(name[..|name| - 1]); }
  }

  lemma {:induction false} SanitizedFixed(name: string)
    requires Clean(name)
    ensures Sanitized(name) == (name, false)
  {
    if |name| > 0 {
      SanitizedFixed(name[..|name| - 1]);
      assert name[|name| - 1] in name;
      assert name == name[..|name| - 1] + [name[|name| - 1]];
    }
  }

  lemma {:induction false} TrimLeftClean(s: string)
    requires Clean(s)
    ensures Clean(TrimLeft(s)) && (TrimLeft(s) != "" ==> TrimLeft(s)[0] != '_')
  {
    if s != "" && s[0] == '_' { TrimLeftClean(s[1..]); }
  }

  lemma {:induction false} TrimRightClean(s: string)
    requires Clean(s)
    ensures Clean(TrimRight(s)) && TrimRight(s) <= s
    ensures TrimRight(s) != "" ==> TrimRight(s)[|TrimRight(s)| - 1] != '_'
  {
    if s != "" && s[|s| - 1] == '_' { TrimRightClean(s[..|s| - 1]); }
  }

  /** A derived prefix is a valid lower-case part without separators around it. */
  lemma PrefixValid(component: string, configured: string)
    requires Prefix(component, configured).Ok?
    ensures var p := Prefix(component, configured).value;
      && ValidPart(p)
      && (configured == "" ==> Clean(p) && p[0] != '_' && p[|p| - 1] != '_')
      && (configured != "" ==> p == configured)
  {
    if configured == "" {
      SanitizedClean(component);
      TrimLeftClean(Sanitized(component).0);
      TrimRightClean(TrimLeft(Sanitized(component).0));
    }
  }

  /** Prefixing again changes nothing, whether the prefix is taken as configured or as
      a component name. */
  lemma PrefixFixed(component: string, configured: string, other: string)
    requires Prefix(component, configured).Ok?
    ensures var p := Prefix(component, configured).value;
      && Prefix(other, p) == Ok(p)
      && (configured == "" ==> Prefix(p, "") == Ok(p))
  {
    PrefixValid(component, configured);
    if configured == "" { SanitizedFixed(Prefix(component, configured).value); }
  }

  /** A character that a prefix can be made of. */
  predicate Telling(r: char) {
    ValidRune(r) && r != '_'
  }

  ghost predicate HasTelling(s: string) {
    exists i :: 0 <= i < |s| && Telling(s[i])
  }

  /** A component without a configured prefix gets one exactly when its name has some
      valid character that is not an underscore. */
  lemma PrefixExists(component: string)
    ensures Prefix(component, "").Ok? <==> HasTelling(component)
  {
    SanitizedClean(component);
    SanitizedTelling(component);
    TrimEmpty(Sanitized(component).0);
  }

  lemma TellingAppend(s: string, r: char)
    ensures HasTelling(s + [r]) <==> HasTelling(s) || Telling(r)
  {
    assert (s + [r])[|s|] == r;
    assert forall i :: 0 <= i < |s| ==> (s + [r])[i] == s[i];
    if HasTelling(s) {
      var i :| 0 <= i < |s| && Telling(s[i]);
      assert Telling((s + [r])[i]);
    }
  }

  lemma {:induction false} SanitizedTelling(name: string)
    ensures HasTelling(Sanitized(name).0) <==> HasTelling(name)
  {
    if |name| > 0 {
      var init, last := name[..|name| - 1], name[|name| - 1];
      SanitizedTelling(init);
      assert name == init + [last];
      TellingAppend(init, last);
      TellingAppend(Sanitized(init).0, Lower(last));
      TellingAppend(Sanitized(init).0, '_');
    }
  }

  lemma {:induction false} TrimEmpty(s: string)
    requires Clean(s)
    ensures Trim(s) == "" <==> !HasTelling(s)
  {
    TrimLeftTelling(s);
    TrimLeftClean(s);
    if TrimLeft(s) != "" {
      TrimRightKeeps(TrimLeft(s));
      assert Telling(TrimLeft(s)[0]);
    }
  }

  lemma {:induction false} TrimLeftTelling(s: string)
    ensures HasTelling(TrimLeft(s)) <==> HasTelling(s)
  {
    if s != "" && s[0] == '_' {
      TrimLeftTelling(s[1..]);
      if HasTelling(s) {
        var i :| 0 <= i < |s| && Telling(s[i]);
        assert Telling(s[1..][i - 1]);
      }
      assert forall i :: 0 <= i < |s| - 1 ==> s[1..][i] == s[i + 1];
    }
  }

  lemma {:induction false} TrimRightKeeps(s: string)
    requires s != "" && s[0] != '_'
    ensures TrimRight(s) != ""
  {
    if s[|s| - 1] == '_' { TrimRightKeeps(s[..|s| - 1]); }
  }

  // ---- Tool and prompt names ----

  /** What a prefix puts before a local name. */
  function Stem(prefix: string): string {
    if prefix == "" then ""
    else if prefix[|prefix| - 1] == '_' then prefix
    else prefix + "__"
  }

  function NamedFeature(prefix: string, local: string): Result<string, Error> {
    if prefix != "" && !ValidPart(prefix) then Err(InvalidPrefix(prefix))
    else if !ValidPart(local) then Err(InvalidName(local))
    else if |Stem(prefix) + local| > MAX_FEATURE_NAME_LENGTH then Err(TooLong(Stem(prefix) + local))
    else Ok(Stem(prefix) + local)
  }

  /** Exactly which names exist, and which fault is reported otherwise. */
  lemma NamesExactly(prefix: string, local: string)
    ensures NamedFeature(prefix, local).Ok? <==>
      (prefix == "" || ValidPart(prefix)) && ValidPart(local) && |NameUnder(prefix, local)| <= 128
    ensures NamedFeature(prefix, local).Ok? ==> NamedFeature(prefix, local).value == NameUnder(prefix, local)
    ensures NamedFeature(prefix, local).Err? ==>
      match NamedFeature(prefix, local).error
      case InvalidPrefix(p) => p == prefix != "" && !ValidPart(prefix)
      case InvalidName(n) => n == local && !ValidPart(local)
      case TooLong(name) => name == NameUnder(prefix, local) && |name| > 128
      case NoValidCharacter(_) => false
  {
    if prefix != "" && prefix[|prefix| - 1] == '_' { assert prefix == prefix[..|prefix| - 1] + "_"; }
    assert Stem(prefix) + local == NameUnder(prefix, local);
  }

  /** Prefix and local name, two underscores apart unless the prefix ends with one. */
  ghost function NameUnder(prefix: string, local: string): string {
    if prefix == "" then local
    else if exists stem :: prefix == stem + "_" then prefix + local
    else prefix + "__" + local
  }

  /** A name is itself a valid part within the limit, and under a fixed prefix it
      determines the local name. */
  lemma NamesInjective(prefix: string, a: string, b: string)
    requires NamedFeature(prefix, a).Ok?
    ensures ValidPart(NamedFeature(prefix, a).value) && |NamedFeature(prefix, a).value| <= MAX_FEATURE_NAME_LENGTH
    ensures NamedFeature(prefix, a) == NamedFeature(prefix, b) ==> a == b
  {
    var name := Stem(prefix) + a;
    assert name[|Stem(prefix)|..] == a;
    if NamedFeature(prefix, a) == NamedFeature(prefix, b) {
      assert (Stem(prefix) + b)[|Stem(prefix)|..] == b;
    }
  }

  /** The marker a request is matched against: the name of a tool `x`, without the x. */
  function Marker(prefix: string): Result<string, Error> {
    match NamedFeature(prefix, "x")
    case Err(e) => Err(e)
    case Ok(marker) => Ok(TrimSuffix(marker, "x"))
  }

  function TrimSuffix(s: string, suffix: string): string {
    if |suffix| <= |s| && s[|s| - |suffix|..] == suffix then s[..|s| - |suffix|] else s
  }

  /** Every name under a prefix passes that prefix's marker. */
  lemma MarkerPasses(prefix: string, local: string)
    requires NamedFeature(prefix, local).Ok?
    ensures Marker(prefix) == Ok(Stem(prefix)) && Stem(prefix) <= NamedFeature(prefix, local).value
  {
    assert |local| >= 1;
    assert (Stem(prefix) + "x")[|Stem(prefix)|..] == "x";
    assert (Stem(prefix) + "x")[..|Stem(prefix)|] == Stem(prefix);
  }

  /** Names do not determine their prefix: two components can build the same name. */
  lemma NamesAmbiguous()
    ensures NamedFeature("a", "b__run").Ok? && NamedFeature("a", "b__run") == NamedFeature("a__b", "run")
    ensures Marker("a").Ok? && Marker("a").value <= NamedFeature("a__b", "run").value
  {
    var stem := "a__";
    assert Stem("a") == stem && Stem("a__b") == "a__b__";
    assert stem + "b__run" == "a__b__run" == "a__b__" + "run";
    MarkerPasses("a", "b__run");
  }

  // ---- URIs ----

  const SCHEME := "mmmcp+"

  /** `valid` says whether the URI or template parses and has a scheme. */
  function NamedUri(prefix: string, original: string, valid: bool): Result<string, Error> {
    if prefix != "" && !ValidPart(prefix) then Err(InvalidPrefix(prefix))
    else if !valid then Err(InvalidName(original))
    else if prefix == "" then Ok(original)
    else Ok(SCHEME + prefix + ":" + original)
  }

  /** Exactly which URIs exist, and which fault is reported otherwise. */
  lemma UrisExactly(prefix: string, original: string, valid: bool)
    ensures NamedUri(prefix, original, valid) ==
      if !valid then Err(if prefix == "" || ValidPart(prefix) then InvalidName(original) else InvalidPrefix(prefix))
      else if prefix == "" then Ok(original)
      else if ValidPart(prefix) then Ok("mmmcp+" + prefix + ":" + original)
      else Err(InvalidPrefix(prefix))
  {
  }

  /** Unlike a name, a prefixed URI determines both its prefix and its original. */
  lemma UrisInjective(p: string, a: string, q: string, b: string)
    requires p != "" && q != "" && NamedUri(p, a, true).Ok? && NamedUri(p, a, true) == NamedUri(q, b, true)
    ensures p == q && a == b
  {
    assert (SCHEME + p + ":" + a)[|SCHEME|..] == p + ":" + a;
    assert (SCHEME + q + ":" + b)[|SCHEME|..] == q + ":" + b;
    ColonSplits(p, a, q, b);
  }

  lemma {:induction false} ColonSplits(p: string, a: string, q: string, b: string)
    requires p + ":" + a == q + ":" + b
    requires (forall r :: r in p ==> ValidRune(r)) && (forall r :: r in q ==> ValidRune(r))
    ensures p == q && a == b
  {
    var s, t := p + ":" + a, q + ":" + b;
    assert s[|p|] == ':' && t[|q|] == ':';
    NoColon(p, a);
    NoColon(q, b);
    assert s[..|p|] == p && t[..|q|] == q;
    assert s[|p| + 1..] == a && t[|q| + 1..] == b;
  }

  lemma NoColon(p: string, a: string)
    requires forall r :: r in p ==> ValidRune(r)
    ensures forall i :: 0 <= i < |p| ==> (p + ":" + a)[i] != ':'
  {
    forall i | 0 <= i < |p| ensures (p + ":" + a)[i] != ':' {
      assert (p + ":" + a)[i] == p[i] && p[i] in p;
    }
  }
}
