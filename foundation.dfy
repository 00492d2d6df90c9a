/**
 * Values and string primitives shared by the whole model: the decoded
 * request/JSON value, PHP truthiness, Laravel's notion of an "empty" field,
 * and the PHP string functions the core uses (strtolower, trim, str_contains,
 * strpos-style search).
 */
module Foundation {

  datatype Option<+T> = None | Some(value: T)

  /** A decoded JSON value as PHP sees it (objects and lists are both arrays). */
  datatype Value =
    | Null
    | Bool(b: bool)
    | Num(n: int)
    | Str(s: string)
    | Arr(entries: seq<(string, Value)>)

  /** PHP truthiness of a nullable string: null, "" and "0" are falsy. */
  predicate IsFalsy(s: Option<string>)
  {
    s.None? || s.value == "" || s.value == "0"
  }

  // ---------------------------------------------------------------- strtolower

  /** strtolower is ASCII-only since PHP 8.2: only A-Z change. */
  function LowerChar(c: char): char
  {
    if 'A' <= c <= 'Z' then (c as int + 32) as char else c
  }

  predicate IsLower(s: string)
  {
    forall i :: 0 <= i < |s| ==> !('A' <= s[i] <= 'Z')
  }

  function ToLower(s: string): (r: string)
    ensures |r| == |s|
    ensures forall i :: 0 <= i < |s| ==> r[i] == LowerChar(s[i])
    ensures IsLower(r)
  {
    seq(|s|, i requires 0 <= i < |s| => LowerChar(s[i]))
  }

  /** A string with no upper-case ASCII letter is its own lower-case form. */
  lemma ToLowerOfLower(s: string)
    requires IsLower(s)
    ensures ToLower(s) == s
  {
    assert forall i :: 0 <= i < |s| ==> ToLower(s)[i] == s[i];
  }

  lemma ToLowerConcat(a: string, b: string)
    ensures ToLower(a + b) == ToLower(a) + ToLower(b)
  {
    assert forall i :: 0 <= i < |a + b| ==> ToLower(a + b)[i] == (ToLower(a) + ToLower(b))[i];
  }

  lemma ToLowerIdempotent(s: string)
    ensures ToLower(ToLower(s)) == ToLower(s)
  {
    ToLowerOfLower(ToLower(s));
  }

  /** Lower-casing only touches letters: '@', '.', '/' stay where they were. */
  lemma LowerCharKeepsPunctuation(c: char)
    ensures LowerChar(c) == '@' <==> c == '@'
    ensures LowerChar(c) == '.' <==> c == '.'
    ensures LowerChar(c) == '/' <==> c == '/'
  {
  }

  // ---------------------------------------------------------------------- trim

  /** The characters PHP's trim() strips by default: " \t\n\r\0\x0B". */
  predicate IsTrimChar(c: char)
  {
    c == ' ' || c == '\t' || c == '\n' || c == '\r' || c == 0 as char || c == 11 as char
  }

  function TrimStart(s: string): (r: string)
    ensures |r| <= |s| && r == s[|s| - |r|..]
    ensures r == [] || !IsTrimChar(r[0])
    ensures forall i :: 0 <= i < |s| - |r| ==> IsTrimChar(s[i])
    decreases |s|
  {
    if |s| > 0 && IsTrimChar(s[0]) then TrimStart(s[1..]) else s
  }

  function TrimEnd(s: string): (r: string)
    ensures |r| <= |s| && r == s[..|r|]
    ensures r == [] || !IsTrimChar(r[|r| - 1])
    ensures forall i :: |r| <= i < |s| ==> IsTrimChar(s[i])
    decreases |s|
  {
    if |s| > 0 && IsTrimChar(s[|s| - 1]) then TrimEnd(s[..|s| - 1]) else s
  }

  /** `r` is `s` with `k` trim characters cut from the front and only trim characters from the back. */
  ghost predicate CutFromEnds(s: string, r: string, k: int)
  {
    0 <= k && k + |r| <= |s| && r == s[k..k + |r|] &&
    (forall i :: 0 <= i < k ==> IsTrimChar(s[i])) &&
    (forall i :: k + |r| <= i < |s| ==> IsTrimChar(s[i]))
  }

  function Trim(s: string): (r: string)
    ensures r == [] || (!IsTrimChar(r[0]) && !IsTrimChar(r[|r| - 1]))
  {
    TrimEnd(TrimStart(s))
  }

  /** trim() cuts only trim characters, and only from the two ends. */
  lemma TrimCutsOnlyEnds(s: string)
    ensures exists k :: CutFromEnds(s, Trim(s), k)
  {
    assert CutFromEnds(s, Trim(s), |s| - |TrimStart(s)|);
  }

  // -------------------------------------------------------------- str_contains

  ghost predicate OccursAt(haystack: string, needle: string, i: int)
  {
    0 <= i && i + |needle| <= |haystack| && haystack[i..i + |needle|] == needle
  }

  /** str_contains($haystack, $needle), searching from position `from` on. */
  function ContainsFrom(haystack: string, needle: string, from: nat): (b: bool)
    requires from <= |haystack|
    ensures b <==> exists i :: from <= i && OccursAt(haystack, needle, i)
    decreases |haystack| - from
  {
    if from + |needle| > |haystack| then
      false
    else if haystack[from..from + |needle|] == needle then
      assert OccursAt(haystack, needle, from);
      true
    else
      ContainsFrom(haystack, needle, from + 1)
  }

  function Contains(haystack: string, needle: string): (b: bool)
    ensures b <==> exists i :: OccursAt(haystack, needle, i)
  {
    ContainsFrom(haystack, needle, 0)
  }

  // ---------------------------------------------------------------- char search

  /** Position of the first `c` in `s`, or |s| when there is none. */
  function IndexOf(s: string, c: char): (i: nat)
    ensures i <= |s|
    ensures i < |s| ==> s[i] == c
    ensures forall j :: 0 <= j < i ==> s[j] != c
    ensures i == |s| <==> c !in s
    decreases |s|
  {
    if |s| == 0 then 0
    else if s[0] == c then 0
    else 1 + IndexOf(s[1..], c)
  }

  // ------------------------------------------------------- Laravel field rules

  /** Laravel's `required`: not null, not a blank string, not an empty array. */
  predicate IsPresentValue(v: Value)
  {
    match v
    case Null => false
    case Str(s) => Trim(s) != []
    case Arr(entries) => |entries| > 0
    case _ => true
  }

  /** Laravel's `max:N` on a string: at most N characters. */
  predicate StringAtMost(v: Value, n: nat)
  {
    v.Str? && |v.s| <= n
  }

  /** The first value stored under `key` in a PHP array, as `$array[$key]`. */
  function Lookup(entries: seq<(string, Value)>, key: string): (r: Option<Value>)
    ensures r.Some? <==> exists i :: 0 <= i < |entries| && entries[i].0 == key
    ensures r.Some? ==> exists i :: 0 <= i < |entries| && entries[i] == (key, r.value)
    decreases |entries|
  {
    if |entries| == 0 then None
    else if entries[0].0 == key then Some(entries[0].1)
    else
      var r := Lookup(entries[1..], key);
      assert r.Some? ==> exists i :: 0 <= i < |entries[1..]| && entries[1..][i] == (key, r.value);
      assert forall i :: 0 <= i < |entries| - 1 ==> entries[1..][i] == entries[i + 1];
      r
  }
}
