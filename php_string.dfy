/**
 * The PHP string builtins the DDL generator relies on: `addslashes`, its
 * inverse `stripslashes`, and `implode`.
 */
module PhpString {

  /** The four characters `addslashes` escapes: single quote, double quote, backslash and NUL. */
  predicate NeedsSlash(c: char) {
    c == '\'' || c == '"' || c == '\\' || c == '\0'
  }

  /** What `addslashes` emits for one character: NUL becomes `\0`, the other three get a backslash in front. */
  function Escape(c: char): string {
    if c == '\0' then "\\0"
    else if NeedsSlash(c) then ['\\', c]
    else [c]
  }

  /** `addslashes($s)`: every character that needs it escaped, the others kept, in order. */
  function AddSlashes(s: string): (r: string)
    ensures |s| <= |r| <= 2 * |s|
  {
    if s == [] then [] else Escape(s[0]) + AddSlashes(s[1..])
  }

  /** True when no character of `s` needs escaping. */
  predicate Plain(s: string) {
    '\'' !in s && '"' !in s && '\\' !in s && '\0' !in s
  }

  /** `addslashes` leaves a string without quotes, backslashes or NULs unchanged. */
  lemma {:induction false} AddSlashesKeepsPlain(s: string)
    requires Plain(s)
    ensures AddSlashes(s) == s
  {
    if s != [] {
      assert s == [s[0]] + s[1..];
      assert s[0] in s;
      AddSlashesKeepsPlain(s[1..]);
    }
  }

  /**
   * `stripslashes($s)`: a backslash is dropped and the character after it kept,
   * except that `\0` becomes NUL; a trailing lone backslash is dropped.
   */
  function StripSlashes(s: string): (r: string)
    ensures |r| <= |s|
    decreases |s|
  {
    if s == [] then []
    else if s[0] != '\\' then [s[0]] + StripSlashes(s[1..])
    else if |s| == 1 then []
    else [if s[1] == '0' then '\0' else s[1]] + StripSlashes(s[2..])
  }

  /** `stripslashes` undoes `addslashes` on every string. */
  lemma {:induction false} StripSlashesInvertsAddSlashes(s: string)
    ensures StripSlashes(AddSlashes(s)) == s
  {
    if s != [] {
      var e, t := Escape(s[0]), AddSlashes(s[1..]);
      StripSlashesInvertsAddSlashes(s[1..]);
      assert AddSlashes(s) == e + t;
      if NeedsSlash(s[0]) {
        assert (e + t)[0] == '\\' && (e + t)[1] == e[1];
        assert (e + t)[2..] == t;
      } else {
        assert (e + t)[0] == s[0];
        assert (e + t)[1..] == t;
      }
      assert s == [s[0]] + s[1..];
    }
  }

  /** `implode($sep, $parts)`: the parts in order, with `sep` between neighbours. */
  function Join(parts: seq<string>, sep: string): string {
    if parts == [] then ""
    else if |parts| == 1 then parts[0]
    else parts[0] + sep + Join(parts[1..], sep)
  }

  /** `str_contains($hay, $needle)`. */
  ghost predicate Occurs(needle: string, hay: string) {
    exists pre: string, post: string :: hay == pre + needle + post
  }

  /** Every part of an `implode` occurs in its result: no part is omitted. */
  lemma {:induction false} JoinContainsEachPart(parts: seq<string>, sep: string, i: int)
    requires 0 <= i < |parts|
    ensures Occurs(parts[i], Join(parts, sep))
  {
    if |parts| == 1 {
      assert Join(parts, sep) == "" + parts[0] + "";
    } else if i == 0 {
      assert Join(parts, sep) == "" + parts[0] + (sep + Join(parts[1..], sep));
    } else {
      JoinContainsEachPart(parts[1..], sep, i - 1);
      var pre, post :| Join(parts[1..], sep) == pre + parts[i] + post;
      assert Join(parts, sep) == (parts[0] + sep + pre) + parts[i] + post;
    }
  }

  /** A string occurs in any text that embeds a text it occurs in. */
  lemma OccursInContext(needle: string, mid: string, left: string, right: string)
    requires Occurs(needle, mid)
    ensures Occurs(needle, left + mid + right)
  {
    var pre, post :| mid == pre + needle + post;
    assert left + mid + right == (left + pre) + needle + (post + right);
  }
}
