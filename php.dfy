/**
 * PHP values and the PHP builtins the Okta plugin relies on (truthiness,
 * string conversion, addslashes/stripslashes, trim, strtolower, strpos,
 * html_entity_decode), together with PHP's insertion-ordered array.
 */
module Php {

  datatype Option<+T> = None | Some(value: T)

  /** A value as PHP holds it after `json_decode(..., true)` or inside an array. */
  datatype Json =
    | Null
    | Bool(b: bool)
    | Int(i: int)
    | Str(s: string)
    | List(items: seq<Json>)
    | Dict(entries: map<string, Json>)

  /** PHP's conversion to boolean (`if ($v)`, `!empty($v)`). */
  predicate Truthy(v: Json) {
    match v
    case Null => false
    case Bool(b) => b
    case Int(i) => i != 0
    case Str(s) => TruthyString(s)
    case List(xs) => xs != []
    case Dict(m) => m != map[]
  }

  /** A string is falsy in PHP exactly when it is "" or "0". */
  predicate TruthyString(s: string) {
    s != "" && s != "0"
  }

  predicate IsArray(v: Json) {
    v.List? || v.Dict?
  }

  /** `$m[$k]`: a missing key reads as null. */
  function Get(m: map<string, Json>, k: string): Json {
    if k in m then m[k] else Null
  }

  /** `isset($m[$k])`: present and not null. */
  predicate Isset(m: map<string, Json>, k: string) {
    k in m && m[k] != Null
  }

  /** `$v[$k]` on a decoded value; anything but an object reads as null. */
  function Field(v: Json, k: string): Json {
    if v.Dict? then Get(v.entries, k) else Null
  }

  /** The entries of an object; null (auto-vivified to `[]`) and scalars give none. */
  function Entries(v: Json): map<string, Json> {
    if v.Dict? then v.entries else map[]
  }

  /** The elements `foreach` visits in a decoded JSON list. */
  function Items(v: Json): seq<Json> {
    if v.List? then v.items else []
  }

  function DigitChar(d: nat): char
    requires d < 10
  {
    "0123456789"[d]
  }

  function NatToString(n: nat): string
    decreases n
  {
    if n < 10 then [DigitChar(n)] else NatToString(n / 10) + [DigitChar(n % 10)]
  }

  function IntToString(i: int): string {
    if i < 0 then "-" + NatToString(-i) else NatToString(i)
  }

  /** PHP's conversion to string (`(string) $v`, or a string parameter in coercive mode). */
  function TextOf(v: Json): string {
    match v
    case Null => ""
    case Bool(b) => if b then "1" else ""
    case Int(i) => IntToString(i)
    case Str(s) => s
    case List(_) => "Array"
    case Dict(_) => "Array"
  }

  // ---------------------------------------------------------------------
  // addslashes / stripslashes

  /** The characters addslashes() escapes: quote, double quote, backslash, NUL. */
  predicate NeedsSlash(c: char) {
    c == '\'' || c == '"' || c == '\\' || c == '\0'
  }

  function Escape(c: char): string {
    if c == '\0' then ['\\', '0'] else if NeedsSlash(c) then ['\\', c] else [c]
  }

  function AddSlashes(s: string): string {
    if s == [] then [] else Escape(s[0]) + AddSlashes(s[1..])
  }

  /** stripslashes(): a backslash is dropped and the next character kept ("\0" becomes NUL). */
  function StripSlashes(s: string): string
    decreases |s|
  {
    if s == [] then []
    else if s[0] == '\\' then
      if |s| == 1 then []
      else (if s[1] == '0' then ['\0'] else [s[1]]) + StripSlashes(s[2..])
    else [s[0]] + StripSlashes(s[1..])
  }

  lemma {:induction false} StripSlashesUndoesAddSlashes(s: string)
    ensures StripSlashes(AddSlashes(s)) == s
  {
    if s != [] {
      var rest := AddSlashes(s[1..]);
      StripSlashesUndoesAddSlashes(s[1..]);
      var e := Escape(s[0]);
      if NeedsSlash(s[0]) {
        assert (e + rest)[0] == '\\' && |e + rest| >= 2;
        assert (e + rest)[2..] == rest;
      } else {
        assert (e + rest)[0] == s[0];
        assert (e + rest)[1..] == rest;
      }
    }
  }

  lemma {:induction false} AddSlashesConcat(a: string, b: string)
    ensures AddSlashes(a + b) == AddSlashes(a) + AddSlashes(b)
  {
    if a != [] {
      assert (a + b)[1..] == a[1..] + b;
      AddSlashesConcat(a[1..], b);
    } else {
      assert a + b == b;
    }
  }

  lemma {:induction false} AddSlashesPlain(s: string)
    requires forall i :: 0 <= i < |s| ==> !NeedsSlash(s[i])
    ensures AddSlashes(s) == s
  {
    if s != [] {
      AddSlashesPlain(s[1..]);
    }
  }

  /** A value produced by addslashes() survives a stripslashes()/addslashes() round trip. */
  lemma EscapedRoundTrip(v: string, name: string)
    requires v == AddSlashes(name)
    ensures AddSlashes(StripSlashes(v)) == v
  {
    StripSlashesUndoesAddSlashes(name);
  }

  // ---------------------------------------------------------------------
  // trim, ltrim, rtrim, strtolower

  /** The characters PHP's trim() removes by default. */
  const TrimChars: set<char> := {' ', '\t', '\n', '\r', '\0', '\U{0B}'}

  /** ltrim($s, $cs). */
  function TrimLeft(s: string, cs: set<char>): (r: string)
    ensures |r| <= |s| && r == s[|s| - |r|..]
    ensures forall i :: 0 <= i < |s| - |r| ==> s[i] in cs
    ensures r == [] || r[0] !in cs
    decreases |s|
  {
    if s != [] && s[0] in cs then TrimLeft(s[1..], cs) else s
  }

  /** rtrim($s, $cs). */
  function TrimRight(s: string, cs: set<char>): (r: string)
    ensures |r| <= |s| && r == s[..|r|]
    ensures forall i :: |r| <= i < |s| ==> s[i] in cs
    ensures r == [] || r[|r| - 1] !in cs
    decreases |s|
  {
    if s != [] && s[|s| - 1] in cs then TrimRight(s[..|s| - 1], cs) else s
  }

  function Trim(s: string): string {
    TrimRight(TrimLeft(s, TrimChars), TrimChars)
  }

  function LowerChar(c: char): char {
    if 'A' <= c <= 'Z' then (c as int + 32) as char else c
  }

  /** strtolower(): ASCII upper-case letters become lower-case. */
  function ToLower(s: string): (r: string)
    ensures |r| == |s|
    ensures forall i :: 0 <= i < |r| ==> !('A' <= r[i] <= 'Z')
    ensures forall i :: 0 <= i < |s| && !('A' <= s[i] <= 'Z') ==> r[i] == s[i]
    ensures forall i :: 0 <= i < |s| && 'A' <= s[i] <= 'Z' ==> r[i] as int - 'a' as int == s[i] as int - 'A' as int
  {
    seq(|s|, i requires 0 <= i < |s| => LowerChar(s[i]))
  }

  // ---------------------------------------------------------------------
  // strpos

  /** `strpos($hay, $needle) !== false`; the empty needle is found at 0. */
  predicate Contains(hay: string, needle: string)
    decreases |hay|
  {
    needle <= hay || (hay != [] && Contains(hay[1..], needle))
  }

  lemma {:induction false} ContainsAt(hay: string, needle: string, i: nat)
    requires i + |needle| <= |hay| && hay[i..i + |needle|] == needle
    ensures Contains(hay, needle)
  {
    if i == 0 {
      assert needle <= hay;
    } else {
      assert hay[1..][i - 1..i - 1 + |needle|] == needle;
      ContainsAt(hay[1..], needle, i - 1);
    }
  }

  // ---------------------------------------------------------------------
  // html_entity_decode

  /**
   * html_entity_decode() restricted to the entities that can appear in the
   * URLs of an Okta Link header: &amp; &lt; &gt; &quot; &#039; &#39;.
   * Decoding is a single left-to-right pass, so "&amp;lt;" becomes "&lt;".
   */
  function HtmlEntityDecode(s: string): string
    decreases |s|
  {
    if s == [] then []
    else if s[0] == '&' then
      if "&amp;" <= s then "&" + HtmlEntityDecode(s[5..])
      else if "&lt;" <= s then "<" + HtmlEntityDecode(s[4..])
      else if "&gt;" <= s then ">" + HtmlEntityDecode(s[4..])
      else if "&quot;" <= s then "\"" + HtmlEntityDecode(s[6..])
      else if "&#039;" <= s then "'" + HtmlEntityDecode(s[6..])
      else if "&#39;" <= s then "'" + HtmlEntityDecode(s[5..])
      else "&" + HtmlEntityDecode(s[1..])
    else [s[0]] + HtmlEntityDecode(s[1..])
  }

  lemma {:induction false} DecodeKeepsPlainText(s: string)
    requires '&' !in s
    ensures HtmlEntityDecode(s) == s
  {
    if s != [] {
      assert s[0] != '&';
      assert forall i :: 0 <= i < |s[1..]| ==> s[1..][i] == s[i + 1];
      DecodeKeepsPlainText(s[1..]);
    }
  }

  /** `&amp;` turns into `&`, text before it is kept and decoding resumes after it. */
  lemma {:induction false} DecodeAmp(a: string, b: string)
    requires '&' !in a
    ensures HtmlEntityDecode(a + "&amp;" + b) == a + "&" + HtmlEntityDecode(b)
  {
    if a == [] {
      assert a + "&amp;" + b == "&amp;" + b;
      assert ("&amp;" + b)[5..] == b;
    } else {
      var s := a + "&amp;" + b;
      assert s[0] == a[0] && s[0] != '&';
      assert s[1..] == a[1..] + "&amp;" + b;
      assert forall i :: 0 <= i < |a[1..]| ==> a[1..][i] == a[i + 1];
      DecodeAmp(a[1..], b);
    }
  }

  // ---------------------------------------------------------------------
  // PHP's ordered array

  /** An insertion-ordered PHP array: `keys` in insertion order, `vals` the contents. */
  datatype OMap<K(==,!new), V> = OMap(keys: seq<K>, vals: map<K, V>) {

    ghost predicate Valid() {
      && (forall i, j :: 0 <= i < j < |keys| ==> keys[i] != keys[j])
      && (forall x :: x in vals <==> x in keys)
    }

    /** `$a[$k] = $v`: a new key goes last, an existing key keeps its place. */
    function Put(k: K, v: V): (r: OMap<K, V>)
      ensures Valid() ==> r.Valid()
      ensures r.vals == vals[k := v]
      ensures keys <= r.keys && (k in vals ==> r.keys == keys)
    {
      OMap(if k in vals then keys else keys + [k], vals[k := v])
    }
  }

  function EmptyMap<K(==,!new), V>(): (r: OMap<K, V>)
    ensures r.Valid() && r.keys == [] && r.vals == map[]
  {
    OMap([], map[])
  }

  /** Writing the same key twice keeps one entry, in its first place, holding the second value. */
  lemma PutOverwrites<K(!new), V>(m: OMap<K, V>, k: K, v1: V, v2: V)
    requires m.Valid()
    ensures m.Put(k, v1).Put(k, v2) == m.Put(k, v2)
    ensures |m.Put(k, v1).Put(k, v2).keys| == |m.Put(k, v2).keys|
    ensures k in m.Put(k, v1).Put(k, v2).vals && m.Put(k, v1).Put(k, v2).vals[k] == v2
  {
  }
}
