/**
 The path of a proxied node request: made canonical, then matched against the deny rules. Percent escapes are those of
 section 2.1 of RFC 3986.
 */
module NodePath {
  import opened Basics

  /** A byte a path may hold, escaped or not: printable, and neither a backslash nor a percent sign. */
  predicate Ordinary(c: char) {
    ' ' <= c < '\U{7F}' && c != '\\' && c != '%'
  }

  /** A byte that may come from an escape: not one that would change what the path means. */
  predicate Escapable(c: char) {
    Ordinary(c) && c != '/' && c != '.'
  }

  function Hex(c: char): Option<nat> {
    if '0' <= c <= '9' then Some(c as int - '0' as int)
    else if 'a' <= c <= 'f' then Some(c as int - 'a' as int + 10)
    else if 'A' <= c <= 'F' then Some(c as int - 'A' as int + 10)
    else None
  }

  /** The byte two hex digits name. */
  function HexByte(a: char, b: char): Option<char> {
    if Hex(a).None? || Hex(b).None? then None
    else
      assert Hex(a).value < 16 && Hex(b).value < 16;
      Some((16 * Hex(a).value + Hex(b).value) as char)
  }

  /** The bytes raw stands for, each escape decoded once; None: ambiguous. */
  function Decode(raw: string): Option<string> {
    if raw == "" then Some("")
    else if raw[0] == '%' then
      if |raw| < 3 then None
      else
        var c, rest := HexByte(raw[1], raw[2]), Decode(raw[3..]);
        if c.None? || !Escapable(c.value) || rest.None? then None else Some([c.value] + rest.value)
    else
      var rest := Decode(raw[1..]);
      if !Ordinary(raw[0]) || rest.None? then None else Some([raw[0]] + rest.value)
  }

  /** raw writes p, any of its bytes that may be escaped as itself or as an escape. */
  predicate Spells(raw: string, p: string) {
    if p == "" then raw == ""
    else
      || (raw != "" && raw[0] == p[0] && Ordinary(p[0]) && Spells(raw[1..], p[1..]))
      || (|raw| >= 3 && raw[0] == '%' && HexByte(raw[1], raw[2]) == Some(p[0]) && Escapable(p[0]) && Spells(raw[3..], p[1..]))
  }

  lemma {:induction false} DecodesWhatItSpells(raw: string, p: string)
    ensures Decode(raw) == Some(p) <==> Spells(raw, p)
    decreases |raw|
  {
    if raw != "" {
      var n := if raw[0] == '%' then 3 else 1;
      if |raw| >= n {
        if p != "" {
          DecodesWhatItSpells(raw[n..], p[1..]);
          assert p == [p[0]] + p[1..];
        }
        if Decode(raw).Some? {
          DecodesWhatItSpells(raw[n..], Decode(raw[n..]).value);
          assert Decode(raw).value[1..] == Decode(raw[n..]).value;
        }
      }
    }
  }

  // Segments.

  function Slash(s: string): (k: nat)
    ensures k <= |s| && (k < |s| ==> s[k] == '/') && forall j :: 0 <= j < k ==> s[j] != '/'
  {
    if s == "" || s[0] == '/' then 0 else 1 + Slash(s[1..])
  }

  function Split(s: string): (segs: seq<string>)
    ensures segs != []
    decreases |s|
  {
    var k := Slash(s);
    if k == |s| then [s] else [s[..k]] + Split(s[k + 1..])
  }

  function Join(segs: seq<string>): string {
    if segs == [] then "" else if |segs| == 1 then segs[0] else segs[0] + "/" + Join(segs[1..])
  }

  lemma {:induction false} JoinSplit(s: string)
    ensures Join(Split(s)) == s
    decreases |s|
  {
    hide Slash;
    var k := Slash(s);
    if k < |s| {
      var rest := s[k + 1..];
      JoinSplit(rest);
      JoinFirst(s[..k], Split(rest));
      assert s == s[..k] + "/" + rest;
    }
  }

  lemma JoinFirst(seg: string, segs: seq<string>)
    requires segs != []
    ensures Join([seg] + segs) == seg + "/" + Join(segs)
  {
    assert ([seg] + segs)[1..] == segs;
  }

  lemma SlashAt(s: string, k: nat)
    requires k < |s| && s[k] == '/' && forall j :: 0 <= j < k ==> s[j] != '/'
    ensures Slash(s) == k
  {
  }

  lemma SlashIn(a: string, b: string)
    ensures var s, k := a + "/" + b, Slash(a);
      Slash(s) == k < |s| && s[..k] == a[..k] && s[k + 1..] == if k == |a| then b else a[k + 1..] + "/" + b
  {
    hide Slash;
    var s, k := a + "/" + b, Slash(a);
    JoinedTwice(a, "/", b);
    SplitJoined(a, "/" + b, k);
    if k < |a| {
      SplitJoined(a, "/" + b, k + 1);
      JoinedTwice(a[k + 1..], "/", b);
    } else {
      SplitJoinedLate(a, "/" + b, k + 1);
      assert ("/" + b)[1..] == b;
    }
    SlashAt(s, k);
  }

  lemma {:induction false} SplitJoins(a: string, b: string)
    ensures Split(a + "/" + b) == Split(a) + Split(b)
    decreases |a|
  {
    hide Slash;
    SlashIn(a, b);
    var k := Slash(a);
    if k == |a| {
      assert a[..|a|] == a;
    } else {
      SplitJoins(a[k + 1..], b);
      JoinedTwice([a[..k]], Split(a[k + 1..]), Split(b));
    }
  }

  predicate PlainSegment(seg: string) {
    seg != "" && seg != "." && seg != ".."
  }

  predicate AllPlain(segs: seq<string>) {
    forall i :: 0 <= i < |segs| ==> PlainSegment(segs[i])
  }

  /** path.Clean of a rooted path: dots and empty segments go, ".." takes back one. */
  function CleanSegments(done: seq<string>, segs: seq<string>): seq<string>
    decreases |segs|
  {
    if segs == [] then done
    else if segs[0] == "" || segs[0] == "." then CleanSegments(done, segs[1..])
    else if segs[0] == ".." then CleanSegments(if done == [] then [] else done[..|done| - 1], segs[1..])
    else CleanSegments(done + [segs[0]], segs[1..])
  }

  function Clean(p: string): string
    requires p != "" && p[0] == '/'
  {
    "/" + Join(CleanSegments([], Split(p[1..])))
  }

  lemma {:induction false} PlainStays(done: seq<string>, segs: seq<string>)
    requires AllPlain(segs)
    ensures CleanSegments(done, segs) == done + segs
    decreases |segs|
  {
    if segs == [] {
      assert done + segs == done;
    } else {
      PlainStays(done + [segs[0]], segs[1..]);
      assert done + segs == done + [segs[0]] + segs[1..];
    }
  }

  /** Rooted, ordinary bytes, no empty and no dot segment, no slash at the end but the root's. */
  predicate Canonical(p: string) {
    && p != "" && p[0] == '/'
    && (forall i :: 0 <= i < |p| ==> Ordinary(p[i]))
    && (p == "/" || AllPlain(Split(p[1..])))
  }

  lemma CanonicalIsClean(p: string)
    requires p != "" && p[0] == '/' && AllPlain(Split(p[1..]))
    ensures Clean(p) == p
  {
    PlainStays([], Split(p[1..]));
    JoinSplit(p[1..]);
    assert [] + Split(p[1..]) == Split(p[1..]);
    assert p == "/" + p[1..];
  }

  /** Two slashes in a row. */
  predicate DoubleSlash(p: string) {
    exists i :: 0 <= i < |p| - 1 && p[i] == p[i + 1] == '/'
  }

  function TrimSlash(p: string): string {
    if |p| > 1 && p[|p| - 1] == '/' then p[..|p| - 1] else p
  }

  function Checked(b: string): Option<string>
    requires b != "" && b[0] == '/'
  {
    if DoubleSlash(b) then None
    else
      var p := TrimSlash(b);
      if p == "/" then Some(p)
      else if !AllPlain(Split(p[1..])) || Clean(p) != p then None
      else Some(p)
  }

  lemma DecodedStart(raw: string)
    requires raw != "" && raw[0] == '/' && Decode(raw).Some?
    ensures Decode(raw).value != "" && Decode(raw).value[0] == '/'
  {
  }

  /** What the path after /node means; None: ambiguous. */
  function Normalized(raw: string): Option<string> {
    if raw == "" || raw[0] != '/' || Decode(raw).None? then None
    else
      DecodedStart(raw);
      Checked(Decode(raw).value)
  }

  function Prepended(b: string, rest: Option<string>): Option<string> {
    if rest.None? then None else Some(b + rest.value)
  }

  lemma DecodeNext(raw: string, i: nat, b: string)
    requires i < |raw|
    ensures raw[i] != '%' ==>
      Prepended(b, Decode(raw[i..])) == if Ordinary(raw[i]) then Prepended(b + [raw[i]], Decode(raw[i + 1..])) else None
    ensures raw[i] == '%' && |raw| - i < 3 ==> Decode(raw[i..]).None?
    ensures raw[i] == '%' && |raw| - i >= 3 ==>
      (var c := HexByte(raw[i + 1], raw[i + 2]);
       Prepended(b, Decode(raw[i..])) == if c.Some? && Escapable(c.value) then Prepended(b + [c.value], Decode(raw[i + 3..])) else None)
  {
    assert raw[i..][0] == raw[i] && raw[i..][1..] == raw[i + 1..];
    if |raw| - i >= 3 {
      assert raw[i..][1] == raw[i + 1] && raw[i..][2] == raw[i + 2] && raw[i..][3..] == raw[i + 3..];
    }
    if Decode(raw[i + 1..]).Some? {
      assert b + ([raw[i]] + Decode(raw[i + 1..]).value) == b + [raw[i]] + Decode(raw[i + 1..]).value;
    }
    if |raw| - i >= 3 && Decode(raw[i + 3..]).Some? && HexByte(raw[i + 1], raw[i + 2]).Some? {
      var c := HexByte(raw[i + 1], raw[i + 2]).value;
      assert b + ([c] + Decode(raw[i + 3..]).value) == b + [c] + Decode(raw[i + 3..]).value;
    }
  }

  method NormalizeNodePath(raw: string) returns (r: Option<string>)
    ensures r == Normalized(raw)
  {
    hide Decode, HexByte, Clean, Split, AllPlain;
    if raw == "" || raw[0] != '/' {
      return None;
    }
    var b := "";
    var i := 0;
    assert raw[0..] == raw;
    DecodeNone(Decode(raw));
    while i < |raw|
      invariant 0 <= i <= |raw| && Decode(raw) == Prepended(b, Decode(raw[i..]))
    {
      DecodeNext(raw, i, b);
      var c := raw[i];
      if c == '%' {
        if i + 2 >= |raw| {
          return None;
        }
        var v := HexByte(raw[i + 1], raw[i + 2]);
        if v.None? {
          return None;
        }
        c := v.value;
        if c == '/' || c == '\\' || c == '.' || c == '%' || c < ' ' || c >= '\U{7F}' {
          return None;
        }
        i := i + 2;
      } else if c == '\\' || c < ' ' || c >= '\U{7F}' {
        return None;
      }
      b := b + [c];
      i := i + 1;
    }
    DecodeEmpty(raw[|raw|..], b);
    DecodedStart(raw);
    if DoubleSlash(b) {
      return None;
    }
    var p := TrimSlash(b);
    if p == "/" {
      return Some(p);
    }
    var segs := Split(p[1..]);
    for j := 0 to |segs|
      invariant forall k :: 0 <= k < j ==> PlainSegment(segs[k])
    {
      if segs[j] == "" || segs[j] == "." || segs[j] == ".." {
        PlainNot(segs, j);
        return None;
      }
    }
    PlainAll(segs);
    if Clean(p) != p {
      return None;
    }
    return Some(p);
  }

  lemma DecodeNone(d: Option<string>)
    ensures d == Prepended("", d)
  {
    if d.Some? {
      assert "" + d.value == d.value;
    }
  }

  lemma DecodeEmpty(s: string, b: string)
    requires s == ""
    ensures Prepended(b, Decode(s)) == Some(b)
  {
    assert b + "" == b;
  }

  lemma PlainNot(segs: seq<string>, j: nat)
    requires j < |segs| && !PlainSegment(segs[j])
    ensures !AllPlain(segs)
  {
  }

  lemma PlainAll(segs: seq<string>)
    requires forall k :: 0 <= k < |segs| ==> PlainSegment(segs[k])
    ensures AllPlain(segs)
  {
  }

  // What the normal form means.

  lemma {:induction false} DecodedOrdinary(raw: string)
    requires Decode(raw).Some?
    ensures forall i :: 0 <= i < |Decode(raw).value| ==> Ordinary(Decode(raw).value[i])
    decreases |raw|
  {
    if raw != "" {
      DecodedOrdinary(if raw[0] == '%' then raw[3..] else raw[1..]);
    }
  }

  /** Plain segments joined have no slash at either end and none next to another. */
  lemma {:induction false} PlainSlashes(s: string)
    requires AllPlain(Split(s))
    ensures s != "" && s[0] != '/' && s[|s| - 1] != '/' && !DoubleSlash(s)
    decreases |s|
  {
    var k := Slash(s);
    assert PlainSegment(Split(s)[0]);
    if k < |s| {
      var t := s[k + 1..];
      assert Split(s)[1..] == Split(t);
      assert AllPlain(Split(t)) by {
        forall i | 0 <= i < |Split(t)| ensures PlainSegment(Split(t)[i]) {
          assert Split(s)[i + 1] == Split(t)[i];
        }
      }
      PlainSlashes(t);
      forall i | 0 <= i < |s| - 1 ensures !(s[i] == s[i + 1] == '/') {
        if i > k {
          assert t[i - k - 1] == s[i] && t[i - k] == s[i + 1];
        } else if i == k {
          assert t[0] == s[k + 1];
        }
      }
    }
  }

  /** p is what raw means: raw spells p, or p and one slash after it. */
  predicate Names(raw: string, p: string) {
    Spells(raw, p) || (p != "/" && Spells(raw, p + "/"))
  }

  lemma CanonicalTrims(p: string, q: string)
    requires Canonical(p) && (q == p || (p != "/" && q == p + "/"))
    ensures Checked(q) == Some(p)
  {
    hide Split, Clean;
    if p != "/" {
      PlainSlashes(p[1..]);
      CanonicalIsClean(p);
      forall i | 0 <= i < |q| - 1 ensures !(q[i] == q[i + 1] == '/') {
        if i == 0 {
          assert p[1..][0] == p[1];
        } else if i + 1 < |p| {
          assert p[1..][i - 1] == p[i] && p[1..][i] == p[i + 1];
        } else {
          assert p[1..][i - 1] == p[i];
        }
      }
      assert p[1..][|p| - 2] == p[|p| - 1];
      assert (p + "/")[..|p|] == p;
    }
  }

  lemma CheckedIs(b: string, p: string)
    requires b != "" && b[0] == '/' && (forall i :: 0 <= i < |b| ==> Ordinary(b[i])) && Checked(b) == Some(p)
    ensures Canonical(p) && (b == p || (p != "/" && b == p + "/"))
  {
    if b != p {
      assert b == p + "/";
    }
  }

  /**
   Normalizing is exact: raw means p just when p is canonical and raw spells it, perhaps with one slash after it. So
   every spelling of a path, whichever of its ordinary bytes are escaped, gets the same answer.
   */
  lemma NormalizedIs(raw: string, p: string)
    ensures Normalized(raw) == Some(p) <==> Canonical(p) && Names(raw, p)
  {
    if Normalized(raw) == Some(p) {
      var b := Decode(raw).value;
      DecodedStart(raw);
      DecodedOrdinary(raw);
      CheckedIs(b, p);
      DecodesWhatItSpells(raw, b);
    }
    if Canonical(p) && Names(raw, p) {
      var q := if Spells(raw, p) then p else p + "/";
      DecodesWhatItSpells(raw, q);
      assert q[0] == '/' && raw[0] == '/';
      CanonicalTrims(p, q);
    }
  }

  lemma {:induction false} SpellsItself(p: string)
    requires forall i :: 0 <= i < |p| ==> Ordinary(p[i])
    ensures Spells(p, p)
  {
    if p != "" {
      SpellsItself(p[1..]);
    }
  }

  /** A normalized path normalizes to itself, and cleaning it changes nothing. */
  lemma NormalizedIsIdempotent(raw: string)
    requires Normalized(raw).Some?
    ensures Normalized(Normalized(raw).value) == Normalized(raw)
    ensures Normalized(raw).value != "/" ==> Clean(Normalized(raw).value) == Normalized(raw).value
  {
    var p := Normalized(raw).value;
    NormalizedIs(raw, p);
    SpellsItself(p);
    NormalizedIs(p, p);
    if p != "/" {
      CanonicalIsClean(p);
    }
  }

  /** Any other printable byte may be written as an escape, in digits of either case. */
  lemma EscapeIsRead(x: char, y: char, rest: string)
    requires HexByte(x, y).Some?
    ensures var c := HexByte(x, y).value;
      ' ' <= c < '\U{7F}' && c != '/' && c != '.' && c != '\\' && c != '%' ==>
        Decode("%" + [x, y] + rest) == Prepended([c], Decode(rest))
  {
    assert ("%" + [x, y] + rest)[3..] == rest;
  }

  lemma HexDigits(x: char)
    ensures '0' <= x <= '9' ==> Hex(x) == Some(x as int - 48)
    ensures 'a' <= x <= 'f' ==> Hex(x) == Some(x as int - 87)
    ensures 'A' <= x <= 'F' ==> Hex(x) == Some(x as int - 55)
    ensures Hex(x).Some? ==> '0' <= x <= '9' || 'a' <= x <= 'f' || 'A' <= x <= 'F'
  {
  }

  /** Every escape in a path that decodes names a printable byte that cannot change what the path means. */
  lemma {:induction false} EscapesAreHarmless(raw: string, i: nat)
    requires Decode(raw).Some? && i < |raw| && raw[i] == '%'
    ensures i + 2 < |raw| && HexByte(raw[i + 1], raw[i + 2]).Some?
    ensures var c := HexByte(raw[i + 1], raw[i + 2]).value;
      ' ' <= c < '\U{7F}' && c != '/' && c != '.' && c != '\\' && c != '%'
    decreases |raw|
  {
    if raw[0] == '%' {
      if i >= 3 {
        assert raw[3..][i - 3] == raw[i];
        EscapesAreHarmless(raw[3..], i - 3);
        assert raw[3..][i - 2] == raw[i + 1] && raw[3..][i - 1] == raw[i + 2];
      }
    } else {
      assert raw[1..][i - 1] == raw[i];
      EscapesAreHarmless(raw[1..], i - 1);
      assert raw[1..][i] == raw[i + 1] && raw[1..][i + 1] == raw[i + 2];
    }
  }

  /**
   What is forwarded: a rooted path of printable bytes without escapes or backslashes, without empty or dot segments,
   and without a slash at the end. Nothing downstream can read another path out of it.
   */
  lemma NormalFormIsPlain(raw: string)
    requires Normalized(raw).Some?
    ensures var p := Normalized(raw).value;
      && p != "" && p[0] == '/' && (p != "/" ==> p[|p| - 1] != '/')
      && (forall i :: 0 <= i < |p| ==> ' ' <= p[i] < '\U{7F}' && p[i] != '\\' && p[i] != '%')
      && (forall i :: 0 <= i < |p| - 1 ==> !(p[i] == p[i + 1] == '/'))
      && (p != "/" ==> forall k :: 0 <= k < |Split(p[1..])| ==> var s := Split(p[1..])[k]; s != "" && s != "." && s != "..")
    ensures forall i :: 0 <= i < |raw| && raw[i] == '%' ==> i + 2 < |raw| && HexByte(raw[i + 1], raw[i + 2]).Some?
  {
    hide Canonical, Normalized, Split;
    var p := Normalized(raw).value;
    NormalizedIs(raw, p);
    CanonicalIsPlain(p);
    NormalizedDecodes(raw);
    forall i | 0 <= i < |raw| && raw[i] == '%' ensures i + 2 < |raw| && HexByte(raw[i + 1], raw[i + 2]).Some? {
      EscapesAreHarmless(raw, i);
    }
  }

  lemma NormalizedDecodes(raw: string)
    requires Normalized(raw).Some?
    ensures Decode(raw).Some?
  {
  }

  lemma CanonicalIsPlain(p: string)
    requires Canonical(p)
    ensures p != "" && p[0] == '/' && (p != "/" ==> p[|p| - 1] != '/')
    ensures forall i :: 0 <= i < |p| ==> ' ' <= p[i] < '\U{7F}' && p[i] != '\\' && p[i] != '%'
    ensures forall i :: 0 <= i < |p| - 1 ==> !(p[i] == p[i + 1] == '/')
    ensures p != "/" ==> forall k :: 0 <= k < |Split(p[1..])| ==> var s := Split(p[1..])[k]; s != "" && s != "." && s != ".."
  {
    if p != "/" {
      hide Split;
      PlainSlashes(p[1..]);
      assert p == "/" + p[1..];
      forall i | 0 <= i < |p| - 1 ensures !(p[i] == p[i + 1] == '/') {
        if i > 0 {
          assert p[1..][i - 1] == p[i] && p[1..][i] == p[i + 1];
        } else {
          assert p[1..][0] == p[1];
        }
      }
      assert p[1..][|p| - 2] == p[|p| - 1];
    }
  }

  // The deny rules.

  /** A rule matches the whole path, or any path its segments start. "*" stands for one segment. */
  datatype Rule = Rule(pattern: seq<string>, exact: bool, readsOK: bool)

  const DENY_RULES: seq<Rule> := [
    Rule(["blockchain", "send"], false, false), Rule(["blockchain", "approve"], false, false),
    Rule(["wallet"], false, true), Rule(["auth"], false, true), Rule(["config"], false, true), Rule(["ipfs"], false, false),
    Rule(["proxy", "provider", "ping"], false, false), Rule(["proxy", "sessions", "initiate"], false, false),
    Rule(["v1", "audio", "transcriptions"], false, false), Rule(["docker", "build"], false, false),
    Rule(["docker", "container", "start"], false, false), Rule(["blockchain", "sessions"], true, false),
    Rule(["blockchain", "bids", "*", "session"], true, false), Rule(["blockchain", "models", "*", "session"], true, false),
    Rule(["blockchain", "providers"], true, true), Rule(["blockchain", "models"], true, true), Rule(["blockchain", "bids"], true, true)]

  function Segments(p: string): seq<string> {
    Split(Lower(if p != "" && p[0] == '/' then p[1..] else p))
  }

  predicate Matches(pattern: seq<string>, segs: seq<string>) {
    |segs| >= |pattern| && forall i :: 0 <= i < |pattern| ==> pattern[i] == "*" || segs[i] == pattern[i]
  }

  predicate Denies(r: Rule, segs: seq<string>, read: bool) {
    !(r.readsOK && read) && (r.exact ==> |segs| == |r.pattern|) && Matches(r.pattern, segs)
  }

  predicate Blocked(p: string, read: bool) {
    exists i :: 0 <= i < |DENY_RULES| && Denies(DENY_RULES[i], Segments(p), read)
  }

  method AnyDenies(rules: seq<Rule>, segs: seq<string>, read: bool) returns (blocked: bool)
    ensures blocked <==> exists i :: 0 <= i < |rules| && Denies(rules[i], segs, read)
  {
    for i := 0 to |rules|
      invariant forall j :: 0 <= j < i ==> !Denies(rules[j], segs, read)
    {
      var rule := rules[i];
      if rule.readsOK && read {
        continue;
      }
      if |segs| < |rule.pattern| || (rule.exact && |segs| != |rule.pattern|) {
        continue;
      }
      var hit := true;
      for j := 0 to |rule.pattern|
        invariant hit <==> forall k :: 0 <= k < j ==> rule.pattern[k] == "*" || segs[k] == rule.pattern[k]
      {
        if rule.pattern[j] != "*" && segs[j] != rule.pattern[j] {
          hit := false;
          break;
        }
      }
      if hit {
        return true;
      }
    }
    return false;
  }

  function Unrooted(p: string): string {
    if p != "" && p[0] == '/' then p[1..] else p
  }

  /** A rule that reads do not pass, whose segments the path has from the start: exactly those, or those and more. */
  predicate Hits(r: Rule, segs: seq<string>, read: bool) {
    && !(read && r.readsOK)
    && (if r.exact then |segs| == |r.pattern| else |segs| >= |r.pattern|)
    && forall j :: 0 <= j < |r.pattern| && j < |segs| ==> r.pattern[j] == "*" || r.pattern[j] == segs[j]
  }

  lemma HitsAreDenials(p: string, read: bool)
    ensures Blocked(p, read) <==> exists i :: 0 <= i < |DENY_RULES| && Hits(DENY_RULES[i], Split(Lower(Unrooted(p))), read)
  {
    hide Split, Lower;
    var segs := Segments(p);
    forall i | 0 <= i < |DENY_RULES| ensures Denies(DENY_RULES[i], segs, read) <==> Hits(DENY_RULES[i], segs, read) {
    }
  }

  /** read: the method is GET or HEAD. */
  method NodePathBlocked(p: string, read: bool) returns (blocked: bool)
    ensures blocked <==> Blocked(p, read)
    ensures blocked <==> exists i :: 0 <= i < |DENY_RULES| && Hits(DENY_RULES[i], Split(Lower(Unrooted(p))), read)
  {
    HitsAreDenials(p, read);
    hide Denies, Segments, Hits;
    blocked := AnyDenies(DENY_RULES, Segments(p), read);
  }

  lemma {:induction false} LowerJoins(a: string, b: string)
    ensures Lower(a + b) == Lower(a) + Lower(b)
  {
    assert |Lower(a + b)| == |Lower(a) + Lower(b)|;
    forall i | 0 <= i < |a + b| ensures Lower(a + b)[i] == (Lower(a) + Lower(b))[i] {
    }
  }

  /** Whatever follows a path a prefix rule blocks is blocked too. */
  lemma ExtensionStaysBlocked(p: string, more: string, read: bool, i: nat)
    requires p != "" && i < |DENY_RULES| && !DENY_RULES[i].exact && Denies(DENY_RULES[i], Segments(p), read)
    ensures Blocked(p + "/" + more, read)
  {
    var r := DENY_RULES[i];
    var s := if p[0] == '/' then p[1..] else p;
    var q := p + "/" + more;
    assert (if q[0] == '/' then q[1..] else q) == s + "/" + more;
    LowerJoins(s + "/", more);
    LowerJoins(s, "/");
    assert Lower("/") == "/";
    assert Lower(s + "/" + more) == Lower(s) + "/" + Lower(more);
    SplitJoins(Lower(s), Lower(more));
    assert Segments(q) == Segments(p) + Split(Lower(more));
    assert Denies(r, Segments(q), read);
  }

  /** Two spellings of paths that differ in letter case at most are both normalized, and get one verdict. */
  lemma VerdictIgnoresSpelling(raw: string, p: string, other: string, q: string, read: bool)
    requires Canonical(p) && Names(raw, p) && Canonical(q) && Names(other, q) && Lower(p) == Lower(q)
    ensures Normalized(raw) == Some(p) && Normalized(other) == Some(q)
    ensures Blocked(p, read) == Blocked(q, read)
  {
    NormalizedIs(raw, p);
    NormalizedIs(other, q);
    LowerTail(p);
    LowerTail(q);
  }

  lemma LowerTail(p: string)
    requires p != ""
    ensures Lower(p[1..]) == Lower(p)[1..]
  {
  }
}
