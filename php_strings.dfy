/**
  The pieces of PHP and of Laravel's `Str` helper that the Tabula wrapper relies on:
  string truthiness (what `empty()` and `if ($s)` test), the ASCII case mappings
  `strtoupper` / `strtolower`, `Str::endsWith`, `strrpos` and `Str::replaceLast`.
 */
module PhpStrings {

  datatype Option<T> = None | Some(value: T)

  /** A string is falsy in PHP exactly when it is "" or "0"; `empty($s)` is the negation. */
  predicate Truthy(s: string)
    ensures |s| >= 2 ==> Truthy(s)
    ensures Truthy(s) ==> |s| >= 1
  {
    s != "" && s != "0"
  }

  /** `strtoupper` on one character: only the ASCII letters change (PHP 8 is locale-insensitive). */
  function UpperChar(c: char): char {
    if 'a' <= c <= 'z' then (c as int - 32) as char else c
  }

  /** `strtolower` on one character, ASCII only. */
  function LowerChar(c: char): char {
    if 'A' <= c <= 'Z' then (c as int + 32) as char else c
  }

  /** `strtoupper`: maps every character and keeps the length. */
  function ToUpper(s: string): (r: string)
    ensures |r| == |s|
    ensures forall i :: 0 <= i < |s| ==> r[i] == UpperChar(s[i])
  {
    if s == [] then [] else [UpperChar(s[0])] + ToUpper(s[1..])
  }

  /** `strtolower`: maps every character and keeps the length. */
  function ToLower(s: string): (r: string)
    ensures |r| == |s|
    ensures forall i :: 0 <= i < |s| ==> r[i] == LowerChar(s[i])
  {
    if s == [] then [] else [LowerChar(s[0])] + ToLower(s[1..])
  }

  /** `Str::endsWith($s, $suffix)` for the non-empty suffixes the wrapper passes. */
  predicate EndsWith(s: string, suffix: string)
    ensures EndsWith(s, suffix) <==> exists p :: s == p + suffix
  {
    assert |suffix| <= |s| ==> s == s[..|s| - |suffix|] + s[|s| - |suffix|..];
    assert forall p :: s == p + suffix ==> s[|s| - |suffix|..] == suffix;
    |suffix| <= |s| && s[|s| - |suffix|..] == suffix
  }

  /** `needle` occurs in `hay` starting at position `q`. */
  predicate OccursAt(needle: string, hay: string, q: int) {
    0 <= q && q + |needle| <= |hay| && hay[q..q + |needle|] == needle
  }

  /** Searches positions `k`, `k - 1`, ..., `0` for the last occurrence of `needle`. */
  function LastIndexFrom(needle: string, hay: string, k: nat): (r: Option<nat>)
    requires k + |needle| <= |hay|
    ensures r.Some? ==> r.value <= k && OccursAt(needle, hay, r.value)
    ensures r.Some? ==> forall q :: r.value < q <= k ==> !OccursAt(needle, hay, q)
    ensures r.None? ==> forall q :: q <= k ==> !OccursAt(needle, hay, q)
    decreases k
  {
    if OccursAt(needle, hay, k) then Some(k)
    else if k == 0 then None
    else LastIndexFrom(needle, hay, k - 1)
  }

  /** `strrpos($hay, $needle)`: the position of the last occurrence, or none (PHP's `false`). */
  function LastIndexOf(needle: string, hay: string): (r: Option<nat>)
    ensures r.Some? ==> OccursAt(needle, hay, r.value)
    ensures r.Some? ==> forall q :: r.value < q ==> !OccursAt(needle, hay, q)
    ensures r.None? <==> forall q :: !OccursAt(needle, hay, q)
  {
    if |hay| < |needle| then None else LastIndexFrom(needle, hay, |hay| - |needle|)
  }

  /**
    `Str::replaceLast($search, $replace, $subject)`: an empty search leaves the subject
    alone; otherwise the last occurrence of the search, if any, is replaced.
   */
  function ReplaceLast(search: string, replace: string, subject: string): (r: string)
    ensures search == "" || (forall q :: !OccursAt(search, subject, q)) ==> r == subject
    ensures search != "" && (exists q :: OccursAt(search, subject, q)) ==>
      exists p ::
        && OccursAt(search, subject, p)
        && (forall q :: p < q ==> !OccursAt(search, subject, q))
        && r == subject[..p] + replace + subject[p + |search|..]
  {
    if search == "" then subject
    else
      match LastIndexOf(search, subject)
      case None => subject
      case Some(p) => subject[..p] + replace + subject[p + |search|..]
  }

  /** When the subject ends with the search string, `replaceLast` rewrites exactly that suffix. */
  lemma ReplaceLastOfSuffix(search: string, replace: string, s: string)
    requires search != "" && EndsWith(s, search)
    ensures ReplaceLast(search, replace, s) == s[..|s| - |search|] + replace
  {
    var last := |s| - |search|;
    assert OccursAt(search, s, last);
    var p := LastIndexOf(search, s);
    assert p.Some? && p.value == last;
  }
}
