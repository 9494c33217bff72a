/** The recursive scrubbing of audit metadata in plugins/audit/sanitizer.go. */
module Sanitizer {
  import opened Wrappers

  /** A Go value as the sanitizer's type switch sees it. `Typed` is a value of any other
      container or struct type together with the JSON it marshals to, if it marshals. */
  datatype Value =
    | Null
    | Leaf(text: string)
    | Obj(fields: map<string, Value>)
    | Arr(items: seq<Value>)
    | Typed(json: Option<Value>)

  const PLACEHOLDER := Leaf("[REDACTED]")

  const PATTERNS: seq<string> := [
    "password", "passwd", "pwd", "secret", "token", "bearer", "otp", "totp", "code", "hash", "salt",
    "private_key", "privatekey", "credential", "auth_code", "access_token", "refresh_token",
    "session_token", "authorization", "cookie", "device_code", "user_code"]

  // ---------------------------------------------------------------- sensitive keys

  predicate IsSpace(c: char) {
    c == ' ' || c == '\t' || c == '\n' || c == '\r' || c == 0x0b as char || c == 0x0c as char
  }

  function LowerChar(c: char): char {
    if 'A' <= c <= 'Z' then 'a' + (c - 'A') else c
  }

  function Lower(s: string): (r: string)
    ensures |r| == |s| && forall i :: 0 <= i < |s| ==> r[i] == LowerChar(s[i])
  {
    if s == "" then "" else [LowerChar(s[0])] + Lower(s[1..])
  }

  function TrimLeft(s: string): string {
    if s != "" && IsSpace(s[0]) then TrimLeft(s[1..]) else s
  }

  function TrimRight(s: string): string {
    if s != "" && IsSpace(s[|s| - 1]) then TrimRight(s[..|s| - 1]) else s
  }

  predicate OccursAt(s: string, p: string, i: nat) {
    i + |p| <= |s| && s[i..i + |p|] == p
  }

  predicate Contains(s: string, p: string) {
    exists i | 0 <= i <= |s| :: OccursAt(s, p, i)
  }

  predicate Mentions(text: string, patterns: seq<string>) {
    exists k | 0 <= k < |patterns| :: Contains(text, patterns[k])
  }

  predicate IsSensitiveKey(key: string) {
    Mentions(Lower(TrimRight(TrimLeft(key))), PATTERNS)
  }

  predicate Solid(p: string) {
    p != "" && !IsSpace(p[0]) && !IsSpace(p[|p| - 1])
  }

  /** A solid pattern occurs in text with a space in front just when it occurs behind it. */
  lemma SpaceInFront(c: char, s: string, p: string)
    requires Solid(p) && IsSpace(c)
    ensures Contains([c] + s, p) <==> Contains(s, p)
  {
    var l := [c] + s;
    if Contains(l, p) {
      var i :| 0 <= i <= |l| && OccursAt(l, p, i);
      assert l[i..i + |p|][0] == l[i];
      assert s[i - 1..i - 1 + |p|] == l[i..i + |p|];
      assert OccursAt(s, p, i - 1);
    }
    if Contains(s, p) {
      var i :| 0 <= i <= |s| && OccursAt(s, p, i);
      assert l[i + 1..i + 1 + |p|] == s[i..i + |p|];
      assert OccursAt(l, p, i + 1);
    }
  }

  lemma SpaceBehind(s: string, c: char, p: string)
    requires Solid(p) && IsSpace(c)
    ensures Contains(s + [c], p) <==> Contains(s, p)
  {
    var l := s + [c];
    if Contains(l, p) {
      var i :| 0 <= i <= |l| && OccursAt(l, p, i);
      assert l[i..i + |p|][|p| - 1] == l[i + |p| - 1];
      assert s[i..i + |p|] == l[i..i + |p|];
      assert OccursAt(s, p, i);
    }
    if Contains(s, p) {
      var i :| 0 <= i <= |s| && OccursAt(s, p, i);
      assert l[i..i + |p|] == s[i..i + |p|];
      assert OccursAt(l, p, i);
    }
  }

  lemma {:induction false} TrimLeftKeeps(s: string, p: string)
    requires Solid(p)
    ensures Contains(Lower(TrimLeft(s)), p) <==> Contains(Lower(s), p)
  {
    if s != "" && IsSpace(s[0]) {
      TrimLeftKeeps(s[1..], p);
      SpaceInFront(LowerChar(s[0]), Lower(s[1..]), p);
    }
  }

  lemma {:induction false} TrimRightKeeps(s: string, p: string)
    requires Solid(p)
    ensures Contains(Lower(TrimRight(s)), p) <==> Contains(Lower(s), p)
  {
    hide Contains, Solid;
    if s != "" && IsSpace(s[|s| - 1]) {
      TrimRightKeeps(s[..|s| - 1], p);
      SpaceBehind(Lower(s[..|s| - 1]), LowerChar(s[|s| - 1]), p);
      assert Lower(s) == Lower(s[..|s| - 1]) + [LowerChar(s[|s| - 1])];
    }
  }

  lemma TrimKeepsMentions(key: string, patterns: seq<string>)
    requires forall k :: 0 <= k < |patterns| ==> Solid(patterns[k])
    ensures Mentions(Lower(TrimRight(TrimLeft(key))), patterns) <==> Mentions(Lower(key), patterns)
  {
    forall k | 0 <= k < |patterns|
      ensures Contains(Lower(TrimRight(TrimLeft(key))), patterns[k]) <==> Contains(Lower(key), patterns[k])
    {
      TrimLeftKeeps(key, patterns[k]);
      TrimRightKeeps(TrimLeft(key), patterns[k]);
    }
  }

  /** The pattern is spelt out in the key from this position on, in letters of either case. */
  predicate SpeltAt(key: string, p: string, i: nat) {
    && i + |p| <= |key|
    && forall j :: 0 <= j < |p| ==> key[i + j] == p[j] || ('a' <= p[j] <= 'z' && key[i + j] == 'A' + (p[j] - 'a'))
  }

  predicate NoCapitals(p: string) {
    forall j :: 0 <= j < |p| ==> !('A' <= p[j] <= 'Z')
  }

  lemma LoweredLetter(c: char, d: char)
    requires !('A' <= d <= 'Z')
    ensures LowerChar(c) == d <==> c == d || ('a' <= d <= 'z' && c == 'A' + (d - 'a'))
  {
  }

  lemma OccursPointwise(s: string, p: string, i: nat)
    requires i + |p| <= |s|
    ensures OccursAt(s, p, i) <==> forall j :: 0 <= j < |p| ==> s[i + j] == p[j]
  {
    if OccursAt(s, p, i) {
      forall j | 0 <= j < |p| ensures s[i + j] == p[j] {
        assert s[i..i + |p|][j] == s[i + j];
      }
    }
  }

  lemma SpeltMeansOccurs(key: string, p: string, i: nat)
    requires NoCapitals(p) && i + |p| <= |key|
    ensures SpeltAt(key, p, i) <==> OccursAt(Lower(key), p, i)
  {
    hide LowerChar, OccursAt;
    OccursPointwise(Lower(key), p, i);
    forall j | 0 <= j < |p|
      ensures Lower(key)[i + j] == p[j]
        <==> key[i + j] == p[j] || ('a' <= p[j] <= 'z' && key[i + j] == 'A' + (p[j] - 'a'))
    {
      LoweredLetter(key[i + j], p[j]);
    }
  }

  lemma PatternsHaveNoCapitals()
    ensures forall k :: 0 <= k < |PATTERNS| ==> NoCapitals(PATTERNS[k])
  {
  }

  /** A key is sensitive exactly when one of the patterns is spelt out somewhere in it, each
      letter in either case, whatever stands around it. */
  lemma SensitiveExactlyWhen(key: string)
    ensures IsSensitiveKey(key) <==>
      exists k, i :: 0 <= k < |PATTERNS| && 0 <= i <= |key| && SpeltAt(key, PATTERNS[k], i)
  {
    hide PATTERNS, Lower, IsSpace, SpeltAt, OccursAt, NoCapitals, Solid;
    PatternsAreSolid();
    PatternsHaveNoCapitals();
    TrimKeepsMentions(key, PATTERNS);
    SpeltMeansMentions(key, PATTERNS);
  }

  /** The patterns that contain no other one. */
  const ESSENTIAL: seq<string> := [
    "password", "passwd", "pwd", "secret", "token", "bearer", "otp", "code", "hash", "salt", "private_key",
    "privatekey", "credential", "authorization", "cookie"]

  lemma ContainsTrans(s: string, p: string, q: string, j: nat)
    requires Contains(s, p) && OccursAt(p, q, j)
    ensures Contains(s, q)
  {
    var i :| 0 <= i <= |s| && OccursAt(s, p, i);
    assert i + |p| <= |s| && j + |q| <= |p|;
    hide OccursAt;
    OccursPointwise(s, p, i);
    OccursPointwise(p, q, j);
    forall m | 0 <= m < |q| ensures s[i + j + m] == q[m] {
      assert s[i + (j + m)] == p[j + m];
    }
    OccursPointwise(s, q, i + j);
  }

  /** Which essential pattern is in a pattern, and where. */
  function EssentialIn(k: nat): (nat, nat)
    requires k < |PATTERNS|
  {
    if k < 7 then (if k < 6 then k else 6, 0)
    else if k == 7 then (6, 1)
    else if k < 14 then (k - 1, 0)
    else if k == 14 then (7, 5)
    else if k == 15 then (4, 7)
    else if k < 18 then (4, 8)
    else if k < 20 then (k - 5, 0)
    else if k == 20 then (7, 7)
    else (7, 5)
  }

  lemma EssentialOccurs(k: nat)
    requires k < |PATTERNS|
    ensures EssentialIn(k).0 < |ESSENTIAL| && OccursAt(PATTERNS[k], ESSENTIAL[EssentialIn(k).0], EssentialIn(k).1)
  {
    var (e, i) := EssentialIn(k);
    OccursPointwise(PATTERNS[k], ESSENTIAL[e], i);
  }

  lemma EssentialIsPattern(e: nat)
    requires e < |ESSENTIAL|
    ensures exists k :: 0 <= k < |PATTERNS| && PATTERNS[k] == ESSENTIAL[e]
  {
    var k := if e < 7 then e else if e < 13 then e + 1 else e + 5;
    assert PATTERNS[k] == ESSENTIAL[e];
  }

  /** Seven of the patterns change nothing: the others decide. */
  lemma EssentialPatternsDecide(text: string)
    ensures Mentions(text, PATTERNS) <==> Mentions(text, ESSENTIAL)
  {
    if Mentions(text, PATTERNS) {
      var k :| 0 <= k < |PATTERNS| && Contains(text, PATTERNS[k]);
      EssentialOccurs(k);
      hide PATTERNS, ESSENTIAL;
      ContainsTrans(text, PATTERNS[k], ESSENTIAL[EssentialIn(k).0], EssentialIn(k).1);
    }
    if Mentions(text, ESSENTIAL) {
      var e :| 0 <= e < |ESSENTIAL| && Contains(text, ESSENTIAL[e]);
      EssentialIsPattern(e);
    }
  }

  lemma SpeltMeansMentions(key: string, patterns: seq<string>)
    requires forall k :: 0 <= k < |patterns| ==> NoCapitals(patterns[k])
    ensures Mentions(Lower(key), patterns) <==>
      exists k, i :: 0 <= k < |patterns| && 0 <= i <= |key| && SpeltAt(key, patterns[k], i)
  {
    forall k, i | 0 <= k < |patterns| && 0 <= i <= |key|
      ensures SpeltAt(key, patterns[k], i) <==> OccursAt(Lower(key), patterns[k], i)
    {
      if i + |patterns[k]| <= |key| {
        SpeltMeansOccurs(key, patterns[k], i);
      }
    }
    hide SpeltAt, OccursAt, NoCapitals;
    if Mentions(Lower(key), patterns) {
      var k :| 0 <= k < |patterns| && Contains(Lower(key), patterns[k]);
      var i :| 0 <= i <= |Lower(key)| && OccursAt(Lower(key), patterns[k], i);
      assert SpeltAt(key, patterns[k], i);
    }
    if k, i :| 0 <= k < |patterns| && 0 <= i <= |key| && SpeltAt(key, patterns[k], i) {
      assert OccursAt(Lower(key), patterns[k], i);
      assert Contains(Lower(key), patterns[k]);
    }
  }

  lemma PatternsAreSolid()
    ensures forall k :: 0 <= k < |PATTERNS| ==> Solid(PATTERNS[k])
  {
  }

  /** A key is sensitive exactly when a pattern occurs in it, ignoring case; surrounding
      space makes no difference. */
  lemma SensitiveMeansMentions(key: string)
    ensures IsSensitiveKey(key) <==> Mentions(Lower(key), PATTERNS)
  {
    PatternsAreSolid();
    TrimKeepsMentions(key, PATTERNS);
  }

  // ---------------------------------------------------------------- the transformation

  function SanitizeValue(v: Value): Value {
    match v
    case Obj(m) => Obj(SanitizeFields(v, m))
    case Arr(s) => Arr(seq(|s|, i requires 0 <= i < |s| => SanitizeValue(s[i])))
    case _ => v
  }

  function SanitizeFields(whole: Value, m: map<string, Value>): map<string, Value>
    requires forall k :: k in m ==> m[k] < whole
    decreases whole, 0
  {
    map k | k in m :: if IsSensitiveKey(k) then PLACEHOLDER else SanitizeValue(m[k])
  }

  /** json.Marshal followed by a generic json.Unmarshal. */
  function ThroughJSON(v: Value): Option<Value> {
    match v
    case Obj(m) =>
      if exists k | k in m :: ThroughJSON(m[k]).None? then None
      else Some(Obj(map k | k in m :: ThroughJSON(m[k]).value))
    case Arr(s) =>
      if exists i | 0 <= i < |s| :: ThroughJSON(s[i]).None? then None
      else Some(Arr(seq(|s|, i requires 0 <= i < |s| => ThroughJSON(s[i]).value)))
    case Typed(j) => j
    case _ => Some(v)
  }

  function SanitizeMetadata(input: Value): map<string, Value> {
    match input
    case Null => map[]
    case Obj(m) => SanitizeFields(input, m)
    case _ =>
      match ThroughJSON(input)
      case None => map["raw_summary" := Leaf("unserializable_payload")]
      case Some(Null) => map[]
      case Some(Obj(m)) => SanitizeFields(Obj(m), m)
      case Some(_) => map["raw_summary" := Leaf("unparsable_payload")]
  }

  // ---------------------------------------------------------------- reference: paths into a tree

  datatype Step = Key(name: string) | Index(i: nat)

  function At(v: Value, path: seq<Step>): Option<Value> {
    if path == [] then Some(v)
    else match (v, path[0])
      case (Obj(m), Key(k)) => if k in m then At(m[k], path[1..]) else None
      case (Arr(s), Index(i)) => if i < |s| then At(s[i], path[1..]) else None
      case _ => None
  }

  predicate Sensitive(s: Step) {
    s.Key? && IsSensitiveKey(s.name)
  }

  predicate SensitiveWithin(path: seq<Step>) {
    exists i | 0 <= i < |path| :: Sensitive(path[i])
  }

  lemma SensitiveTail(path: seq<Step>)
    requires path != []
    ensures SensitiveWithin(path) <==> Sensitive(path[0]) || SensitiveWithin(path[1..])
  {
    if SensitiveWithin(path) && !Sensitive(path[0]) {
      var i :| 0 <= i < |path| && Sensitive(path[i]);
      assert path[1..][i - 1] == path[i];
    }
    if SensitiveWithin(path[1..]) {
      var i :| 0 <= i < |path| - 1 && Sensitive(path[1..][i]);
      assert path[i + 1] == path[1..][i];
    }
  }

  /** Away from sensitive keys the result has exactly the paths of the input, each leading to
      the sanitized subtree; leaves are unchanged. */
  lemma {:induction false} UntouchedPaths(v: Value, path: seq<Step>)
    requires !SensitiveWithin(path)
    ensures At(SanitizeValue(v), path).Some? <==> At(v, path).Some?
    ensures At(v, path).Some? ==> At(SanitizeValue(v), path).value == SanitizeValue(At(v, path).value)
    decreases |path|
  {
    if path != [] {
      SensitiveTail(path);
      match (v, path[0])
      case (Obj(m), Key(k)) => if k in m { UntouchedPaths(m[k], path[1..]); }
      case (Arr(s), Index(i)) => if i < |s| { UntouchedPaths(s[i], path[1..]); }
      case _ =>
    }
  }

  lemma {:induction false} AtAppend(v: Value, p: seq<Step>, q: seq<Step>)
    ensures At(v, p + q) == if At(v, p).None? then None else At(At(v, p).value, q)
    decreases |p|
  {
    if p == [] {
      assert p + q == q;
    } else {
      assert (p + q)[1..] == p[1..] + q;
      match (v, p[0])
      case (Obj(m), Key(k)) => if k in m { AtAppend(m[k], p[1..], q); }
      case (Arr(s), Index(i)) => if i < |s| { AtAppend(s[i], p[1..], q); }
      case _ =>
    }
  }

  /** A value under a sensitive key, at any depth, is replaced by the placeholder, and
      nothing below it remains. */
  lemma RedactedPaths(v: Value, path: seq<Step>, k: string, rest: seq<Step>)
    requires !SensitiveWithin(path) && IsSensitiveKey(k)
    requires At(v, path + [Key(k)]).Some?
    ensures At(SanitizeValue(v), path + [Key(k)] + rest) == if rest == [] then Some(Leaf("[REDACTED]")) else None
  {
    AtAppend(v, path, [Key(k)]);
    UntouchedPaths(v, path);
    var w := At(v, path).value;
    AtAppend(SanitizeValue(v), path, [Key(k)]);
    AtAppend(SanitizeValue(v), path + [Key(k)], rest);
    assert At(w, [Key(k)]).Some? && w.Obj? && k in w.fields;
    assert SanitizeValue(w) == Obj(SanitizeFields(w, w.fields));
    assert SanitizeFields(w, w.fields)[k] == PLACEHOLDER;
    assert At(PLACEHOLDER, rest) == if rest == [] then Some(PLACEHOLDER) else None;
  }

  /** json.Marshal works on a value exactly if it works on every part of it. */
  lemma {:induction false} SerializableExactly(v: Value)
    ensures ThroughJSON(v).Some? <==> forall path :: At(v, path) != Some(Typed(None))
  {
    if ThroughJSON(v).Some? {
      forall path ensures At(v, path) != Some(Typed(None)) {
        SerializableParts(v, path);
      }
    } else {
      var path := UnserializablePart(v);
    }
  }

  lemma {:induction false} SerializableParts(v: Value, path: seq<Step>)
    requires ThroughJSON(v).Some?
    ensures At(v, path) != Some(Typed(None))
    decreases |path|
  {
    if path != [] {
      match (v, path[0])
      case (Obj(m), Key(k)) => if k in m { SerializableParts(m[k], path[1..]); }
      case (Arr(s), Index(i)) => if i < |s| { SerializableParts(s[i], path[1..]); }
      case _ =>
    }
  }

  lemma {:induction false} UnserializablePart(v: Value) returns (path: seq<Step>)
    requires ThroughJSON(v).None?
    ensures At(v, path) == Some(Typed(None))
  {
    match v
    case Obj(m) =>
      var k :| k in m && ThroughJSON(m[k]).None?;
      var rest := UnserializablePart(m[k]);
      path := [Key(k)] + rest;
      assert path[1..] == rest;
    case Arr(s) =>
      var i :| 0 <= i < |s| && ThroughJSON(s[i]).None?;
      var rest := UnserializablePart(s[i]);
      path := [Index(i)] + rest;
      assert path[1..] == rest;
    case _ => path := [];
  }

  /** What becomes of a whole payload: an object is scrubbed; a struct is scrubbed as the object
      it marshals to; nothing stays nothing; anything else is summarized, by whether it can be
      marshalled at all. */
  lemma PayloadExactly(input: Value)
    ensures match input
      case Obj(m) => Obj(SanitizeMetadata(input)) == SanitizeValue(input)
      case Null => SanitizeMetadata(input) == map[]
      case Typed(Some(Null)) => SanitizeMetadata(input) == map[]
      case Typed(Some(Obj(m))) => Obj(SanitizeMetadata(input)) == SanitizeValue(Obj(m))
      case _ =>
        var marshals := forall path :: At(input, path) != Some(Typed(None));
        SanitizeMetadata(input)
          == map["raw_summary" := Leaf(if marshals then "unparsable_payload" else "unserializable_payload")]
  {
    SerializableExactly(input);
  }

  /** Leaves and structs are kept as they are, lists and objects keep their items and keys. */
  lemma ShapeIsKept(v: Value)
    ensures match v
      case Obj(m) => SanitizeValue(v).Obj? && SanitizeValue(v).fields.Keys == m.Keys
      case Arr(s) => SanitizeValue(v).Arr? && |SanitizeValue(v).items| == |s|
      case _ => SanitizeValue(v) == v
  {
  }

  lemma {:induction false} Idempotent(v: Value)
    ensures SanitizeValue(SanitizeValue(v)) == SanitizeValue(v)
  {
    match v
    case Obj(m) =>
      forall k | k in m && !IsSensitiveKey(k)
        ensures SanitizeValue(SanitizeValue(m[k])) == SanitizeValue(m[k])
      {
        Idempotent(m[k]);
      }
      var once := SanitizeFields(v, m);
      assert SanitizeValue(v) == Obj(once);
      assert SanitizeFields(Obj(once), once) == once;
    case Arr(s) =>
      forall i | 0 <= i < |s| ensures SanitizeValue(SanitizeValue(s[i])) == SanitizeValue(s[i]) {
        Idempotent(s[i]);
      }
    case _ =>
  }

  lemma FieldsIdempotent(v: Value)
    requires v.Obj?
    ensures var out := SanitizeFields(v, v.fields); SanitizeFields(Obj(out), out) == out
  {
    Idempotent(v);
    var out := SanitizeFields(v, v.fields);
    assert SanitizeValue(v) == Obj(out);
    assert SanitizeValue(Obj(out)) == Obj(SanitizeFields(Obj(out), out));
  }

  lemma SummaryUnchanged(text: string)
    ensures var out := map["raw_summary" := Leaf(text)]; SanitizeFields(Obj(out), out) == out
  {
    NotSensitive();
  }

  /** Event payloads are sanitized when the record is built and again by Record: the second
      pass changes nothing. */
  lemma MetadataIdempotent(input: Value)
    ensures SanitizeMetadata(Obj(SanitizeMetadata(input))) == SanitizeMetadata(input)
  {
    if input.Obj? {
      FieldsIdempotent(input);
    } else if input != Null {
      match ThroughJSON(input)
      case None => SummaryUnchanged("unserializable_payload");
      case Some(Null) =>
      case Some(Obj(m)) => FieldsIdempotent(Obj(m));
      case Some(_) => SummaryUnchanged("unparsable_payload");
    }
  }

  // ---------------------------------------------------------------- what ends up persisted

  /** In the JSON of this value every sensitive key, at any depth, holds the placeholder. */
  ghost predicate Clean(v: Value) {
    match v
    case Obj(m) => forall k :: k in m ==> if IsSensitiveKey(k) then m[k] == PLACEHOLDER else Clean(m[k])
    case Arr(s) => forall i :: 0 <= i < |s| ==> Clean(s[i])
    case Typed(Some(j)) => Clean(j)
    case _ => true
  }

  /** Nested values of other Go types, reached without crossing a sensitive key, are clean. */
  ghost predicate TypedPartsClean(v: Value) {
    match v
    case Obj(m) => forall k :: k in m && !IsSensitiveKey(k) ==> TypedPartsClean(m[k])
    case Arr(s) => forall i :: 0 <= i < |s| ==> TypedPartsClean(s[i])
    case Typed(Some(j)) => Clean(j)
    case _ => true
  }

  /** Built from generic JSON containers only. */
  ghost predicate Generic(v: Value) {
    match v
    case Obj(m) => forall k :: k in m ==> Generic(m[k])
    case Arr(s) => forall i :: 0 <= i < |s| ==> Generic(s[i])
    case Typed(_) => false
    case _ => true
  }

  lemma {:induction false} GenericHasNoTypedParts(v: Value)
    requires Generic(v)
    ensures TypedPartsClean(v)
  {
    match v
    case Obj(m) => forall k | k in m ensures TypedPartsClean(m[k]) { GenericHasNoTypedParts(m[k]); }
    case Arr(s) => forall i | 0 <= i < |s| ensures TypedPartsClean(s[i]) { GenericHasNoTypedParts(s[i]); }
    case _ =>
  }

  /** The type switch does not look inside other Go types, so the result is clean exactly
      when the nested values of such types already are. */
  lemma {:induction false} CleanExactlyWhen(v: Value)
    ensures Clean(SanitizeValue(v)) <==> TypedPartsClean(v)
  {
    match v
    case Obj(m) =>
      forall k | k in m && !IsSensitiveKey(k) ensures Clean(SanitizeValue(m[k])) <==> TypedPartsClean(m[k]) {
        CleanExactlyWhen(m[k]);
      }
      var out := SanitizeFields(v, m);
      assert SanitizeValue(v) == Obj(out) && out.Keys == m.Keys;
      forall k | k in m ensures k in out && out[k] == if IsSensitiveKey(k) then PLACEHOLDER else SanitizeValue(m[k]) {}
      if TypedPartsClean(v) {
        forall k | k in out && !IsSensitiveKey(k) ensures Clean(out[k]) { assert TypedPartsClean(m[k]); }
      }
      if Clean(Obj(out)) {
        forall k | k in m && !IsSensitiveKey(k) ensures TypedPartsClean(m[k]) { assert Clean(out[k]); }
      }
    case Arr(s) =>
      forall i | 0 <= i < |s| ensures Clean(SanitizeValue(s[i])) <==> TypedPartsClean(s[i]) {
        CleanExactlyWhen(s[i]);
      }
      var out := SanitizeValue(v).items;
      assert forall i :: 0 <= i < |s| ==> out[i] == SanitizeValue(s[i]);
    case _ =>
  }

  /** Any JSON tree, and any payload that is converted through JSON as a whole, is left with
      the placeholder under every sensitive key; a map holding other Go types is left clean
      exactly when those parts already are. */
  lemma MetadataClean(input: Value)
    ensures input.Obj? ==> Obj(SanitizeMetadata(input)) == SanitizeValue(input)
    ensures input.Obj? ==> (Clean(Obj(SanitizeMetadata(input))) <==> TypedPartsClean(input))
    ensures input.Obj? && Generic(input) ==> Clean(Obj(SanitizeMetadata(input)))
    ensures !input.Obj? && (ThroughJSON(input).Some? ==> Generic(ThroughJSON(input).value)) ==>
      Clean(Obj(SanitizeMetadata(input)))
  {
    if input.Obj? {
      CleanExactlyWhen(input);
      if Generic(input) { GenericHasNoTypedParts(input); }
    } else if input != Null {
      match ThroughJSON(input)
      case None => NotSensitive();
      case Some(Null) =>
      case Some(Obj(m)) =>
        if Generic(Obj(m)) {
          CleanExactlyWhen(Obj(m));
          GenericHasNoTypedParts(Obj(m));
        }
      case Some(_) => NotSensitive();
    }
  }

  lemma ContainedCharacter(s: string, p: string, c: char)
    requires Contains(s, p) && c in p
    ensures c in s
  {
    var i :| 0 <= i <= |s| && OccursAt(s, p, i);
    var j :| 0 <= j < |p| && p[j] == c;
    assert s[i..i + |p|][j] == s[i + j];
  }

  ghost predicate Lacks(text: string, patterns: seq<string>, lacked: string) {
    |lacked| == |patterns| && forall k :: 0 <= k < |patterns| ==> lacked[k] in patterns[k] && lacked[k] !in text
  }

  lemma LackingMeansUnmentioned(text: string, patterns: seq<string>, lacked: string)
    requires Lacks(Lower(text), patterns, lacked) && forall k :: 0 <= k < |patterns| ==> Solid(patterns[k])
    ensures !Mentions(Lower(TrimRight(TrimLeft(text))), patterns)
  {
    TrimKeepsMentions(text, patterns);
    var text := Lower(text);
    forall k | 0 <= k < |patterns| ensures !Contains(text, patterns[k]) {
      if Contains(text, patterns[k]) {
        ContainedCharacter(text, patterns[k], lacked[k]);
      }
    }
  }

  /** A character of each pattern that "raw_summary" lacks. */
  const LACKED := "pppetbotchlppccceetoee"

  lemma LackedAreAbsent()
    ensures forall k :: 0 <= k < |LACKED| ==> LACKED[k] !in "raw_summary"
  {
  }

  lemma LackedArePresent()
    ensures |LACKED| == |PATTERNS| && forall k :: 0 <= k < |LACKED| ==> LACKED[k] in PATTERNS[k]
  {
    assert PATTERNS[0][0] == PATTERNS[1][0] == PATTERNS[2][0] == PATTERNS[11][0] == PATTERNS[12][0] == 'p';
    assert PATTERNS[3][1] == PATTERNS[5][1] == PATTERNS[17][1] == PATTERNS[20][1] == PATTERNS[21][2] == 'e';
  }

  lemma LackedCharacters()
    ensures Lacks("raw_summary", PATTERNS, LACKED)
  {
    hide LACKED, PATTERNS;
    LackedAreAbsent();
    LackedArePresent();
  }

  lemma LowerIdentity(s: string)
    requires forall i :: 0 <= i < |s| ==> LowerChar(s[i]) == s[i]
    ensures Lower(s) == s
  {
  }

  lemma NotSensitive()
    ensures !IsSensitiveKey("raw_summary")
  {
    PatternsAreSolid();
    LowerIdentity("raw_summary");
    LackedCharacters();
    LackingMeansUnmentioned("raw_summary", PATTERNS, LACKED);
  }

  /** A secret inside a nested value of another Go type survives. */
  lemma TypedSecretSurvives(key: string, secretKey: string, secret: string)
    requires !IsSensitiveKey(key) && IsSensitiveKey(secretKey) && secret != PLACEHOLDER.text
    ensures var typed := Typed(Some(Obj(map[secretKey := Leaf(secret)])));
      var out := SanitizeMetadata(Obj(map[key := typed]));
      key in out && out[key] == typed && !Clean(Obj(out))
  {
    var m := map[secretKey := Leaf(secret)];
    assert secretKey in m && m[secretKey] != PLACEHOLDER;
    var typed := Typed(Some(Obj(m)));
    assert !Clean(Obj(m)) && !Clean(typed);
    var out := SanitizeMetadata(Obj(map[key := typed]));
    assert SanitizeValue(typed) == typed && out[key] == typed;
  }
}
