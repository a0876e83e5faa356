/**
 * Scrubbing of chat text before training: `text.gsub(/<.*?>/, "")`.
 *
 * The pattern is scanned left to right. At a `<` it matches lazily up to the
 * first following `>`; Ruby's `.` does not match a line break, so when a `\n`
 * comes before any `>` there is no match at that `<`, the `<` is kept and the
 * scan moves on by one character. Each match is deleted and the scan resumes
 * right after it.
 */
module Scrubbing {
  import opened Wrappers

  /** Index in `s` of the `>` closing a tag whose body starts at `s[0]`:
      the first `>`, provided no line break comes before it. */
  function CloseAt(s: string): (r: Option<nat>)
    ensures r.Some? ==> r.value < |s| && s[r.value] == '>'
    ensures r.Some? ==> '>' !in s[..r.value] && '\n' !in s[..r.value]
    ensures r.None? ==> forall k :: 0 <= k < |s| && s[k] == '>' ==> '\n' in s[..k]
  {
    if s == [] then None
    else if s[0] == '>' then Some(0)
    else if s[0] == '\n' then None
    else
      match CloseAt(s[1..])
      case None =>
        assert forall k :: 0 < k < |s| ==> s[..k] == [s[0]] + s[1..][..k - 1];
        None
      case Some(k) =>
        assert s[..k + 1] == [s[0]] + s[1..][..k];
        Some(k + 1)
  }

  /** Length of the tag `<…>` that starts at `s[0]`, if one does. The match
      is lazy: it ends at the first `>` after the `<`. */
  function TagLength(s: string): (r: Option<nat>)
    ensures r.Some? ==> 2 <= r.value <= |s| && s[0] == '<' && s[r.value - 1] == '>'
    ensures r.Some? ==> '>' !in s[1..r.value - 1]
    ensures r.Some? ==> '\n' !in s[..r.value]
    ensures r.None? <==> (s == [] || s[0] != '<' || CloseAt(s[1..]).None?)
  {
    if s != [] && s[0] == '<' then
      match CloseAt(s[1..])
      case Some(k) =>
        assert s[..k + 2] == [s[0]] + s[1..][..k] + [s[k + 1]];
        assert s[1..k + 1] == s[1..][..k];
        Some(k + 2)
      case None => None
    else None
  }

  /** `s.gsub(/<.*?>/, "")`. */
  function Scrub(s: string): (r: string)
    ensures |r| <= |s|
    decreases |s|
  {
    if s == [] then []
    else
      match TagLength(s)
      case Some(n) => Scrub(s[n..])
      case None => [s[0]] + Scrub(s[1..])
  }

  /** No tag is left in `s`: every `<` meets a line break or the end before any `>`. */
  ghost predicate Clean(s: string)
  {
    forall i :: 0 <= i < |s| && s[i] == '<' ==> CloseAt(s[i + 1..]).None?
  }

  /** Scrubbing a string whose head has no `>` before its first line break
      leaves a string with the same property. */
  lemma {:induction false} UnclosedStaysUnclosed(s: string)
    requires CloseAt(s).None?
    ensures CloseAt(Scrub(s)).None?
    decreases |s|
  {
    if s != [] {
      assert s[0] != '>';
      if s[0] != '\n' {
        match TagLength(s)
        case Some(n) =>
          assert false;
        case None =>
          UnclosedStaysUnclosed(s[1..]);
      }
    }
  }

  lemma CleanCons(c: char, t: string)
    requires Clean(t)
    requires c == '<' ==> CloseAt(t).None?
    ensures Clean([c] + t)
  {
    var s := [c] + t;
    forall i | 0 <= i < |s| && s[i] == '<'
      ensures CloseAt(s[i + 1..]).None?
    {
      if i > 0 {
        assert s[i + 1..] == t[i..];
        assert t[i - 1] == '<';
      } else {
        assert s[1..] == t;
      }
    }
  }

  /** gsub leaves no match behind. */
  lemma {:induction false} ScrubIsClean(s: string)
    ensures Clean(Scrub(s))
    decreases |s|
  {
    if s != [] {
      match TagLength(s)
      case Some(n) =>
        ScrubIsClean(s[n..]);
      case None =>
        ScrubIsClean(s[1..]);
        if s[0] == '<' {
          UnclosedStaysUnclosed(s[1..]);
        }
        CleanCons(s[0], Scrub(s[1..]));
    }
  }

  /** A string with no tag in it is left as it is. */
  lemma {:induction false} CleanUnchanged(s: string)
    requires Clean(s)
    ensures Scrub(s) == s
    decreases |s|
  {
    if s != [] {
      assert s[0] == '<' ==> CloseAt(s[1..]).None?;
      assert TagLength(s).None?;
      forall i | 0 <= i < |s| - 1 && s[1..][i] == '<'
        ensures CloseAt(s[1..][i + 1..]).None?
      {
        assert s[1..][i + 1..] == s[i + 2..];
        assert s[i + 1] == '<';
      }
      CleanUnchanged(s[1..]);
    }
  }

  /** Scrubbing twice is scrubbing once. */
  lemma ScrubIdempotent(s: string)
    ensures Scrub(Scrub(s)) == Scrub(s)
  {
    ScrubIsClean(s);
    CleanUnchanged(Scrub(s));
  }

  /** Text before the first `<` is copied through unchanged. */
  lemma {:induction false} PlainPrefixKept(u: string, v: string)
    requires '<' !in u
    ensures Scrub(u + v) == u + Scrub(v)
    decreases |u|
  {
    if u == [] {
      assert u + v == v;
    } else {
      var c := u[0];
      var rest := u[1..];
      assert u == [c] + rest;
      assert u + v == [c] + (rest + v);
      PlainHead(c, rest + v);
      PlainPrefixKept(rest, v);
    }
  }

  /** A text with no `<` in it is returned unchanged. */
  lemma PlainKept(s: string)
    requires '<' !in s
    ensures Scrub(s) == s
  {
    PlainPrefixKept(s, []);
    assert s + [] == s;
  }

  /** A character other than `<` is copied through. */
  lemma PlainHead(c: char, t: string)
    requires c != '<'
    ensures Scrub([c] + t) == [c] + Scrub(t)
  {
    assert ([c] + t)[1..] == t;
  }

  /** `t` followed by `>`: the close is found right after `t` when `t` holds no `>` and no line break. */
  lemma {:induction false} CloseAfterBody(t: string, rest: string)
    requires '>' !in t && '\n' !in t
    ensures CloseAt(t + ['>'] + rest) == Some(|t|)
    decreases |t|
  {
    if t != [] {
      var s := t + ['>'] + rest;
      assert s[1..] == t[1..] + ['>'] + rest;
      CloseAfterBody(t[1..], rest);
    }
  }

  /** A leading tag `<t>` (no `>` and no line break inside) is deleted, surrounding text kept. */
  lemma TagRemoved(t: string, rest: string)
    requires '>' !in t && '\n' !in t
    ensures Scrub(['<'] + t + ['>'] + rest) == Scrub(rest)
  {
    var s := ['<'] + t + ['>'] + rest;
    assert s[1..] == t + ['>'] + rest;
    CloseAfterBody(t, rest);
    assert s[|t| + 2..] == rest;
  }

  /** A `>` search never crosses a line break. */
  lemma {:induction false} CloseStopsAtNewline(a: string, b: string)
    ensures CloseAt(a + ['\n'] + b) == CloseAt(a)
    decreases |a|
  {
    if a != [] {
      var s := a + ['\n'] + b;
      assert s[1..] == a[1..] + ['\n'] + b;
      CloseStopsAtNewline(a[1..], b);
    }
  }

  /** Whether a tag starts at the head, and how long it is, is decided before the first line break. */
  lemma TagStopsAtNewline(a: string, b: string)
    requires a != []
    ensures TagLength(a + ['\n'] + b) == TagLength(a)
  {
    var s := a + ['\n'] + b;
    assert s[0] == a[0];
    if a[0] == '<' {
      assert s[1..] == a[1..] + ['\n'] + b;
      CloseStopsAtNewline(a[1..], b);
    }
  }

  /** A tag never spans a line break: scrubbing works line by line. */
  lemma {:induction false} ScrubByLine(a: string, b: string)
    ensures Scrub(a + ['\n'] + b) == Scrub(a) + ['\n'] + Scrub(b)
    decreases |a|
  {
    var s := a + ['\n'] + b;
    if a == [] {
      assert s == ['\n'] + b;
      PlainHead('\n', b);
    } else {
      TagStopsAtNewline(a, b);
      match TagLength(a)
      case Some(n) =>
        assert s[n..] == a[n..] + ['\n'] + b;
        ScrubByLine(a[n..], b);
        assert Scrub(s) == Scrub(s[n..]);
        assert Scrub(a) == Scrub(a[n..]);
      case None =>
        assert s[1..] == a[1..] + ['\n'] + b;
        ScrubByLine(a[1..], b);
        assert Scrub(s) == [a[0]] + Scrub(s[1..]);
        assert Scrub(a) == [a[0]] + Scrub(a[1..]);
    }
  }

  /** A mention such as `hello <@U2> world` is deleted and the text on both
      sides of it, spaces included, is kept: `hello  world`. */
  lemma MentionRemoved(before: string, id: string, after: string)
    requires '<' !in before
    requires '>' !in id && '\n' !in id
    ensures Scrub(before + ['<', '@'] + id + ['>'] + after) == before + Scrub(after)
  {
    var body := ['@'] + id;
    assert '>' !in body && '\n' !in body;
    var tag := ['<'] + body + ['>'] + after;
    assert before + ['<', '@'] + id + ['>'] + after == before + tag;
    PlainPrefixKept(before, tag);
    TagRemoved(body, after);
  }
}
