/**
 * Go's `net/url.Parse`, reduced to the three components the program reads afterwards:
 * the scheme, the host and the path. The order of the steps is Go's: reject control
 * bytes, cut the fragment at '#', split off the scheme, cut the query at '?', treat a
 * rootless rest after a scheme as opaque, take the authority after "//", and keep the
 * host after the last '@'.
 */
module Urls {
  import opened Wrappers
  import opened Strings

  datatype Url = Url(scheme: string, host: string, path: string)

  /** The text before the first `c`, or all of `s` when `c` does not occur. */
  function Before(s: string, c: char): (r: string)
    ensures c !in r && HasPrefix(s, r)
    ensures |r| < |s| ==> s[|r|] == c
    decreases |s|
  {
    if |s| == 0 || s[0] == c then "" else [s[0]] + Before(s[1..], c)
  }

  /** The text from the first `c` on (included), or "" when `c` does not occur. */
  function From(s: string, c: char): (r: string)
    ensures Before(s, c) + r == s
    decreases |s|
  {
    if |s| == 0 || s[0] == c then s else From(s[1..], c)
  }

  /** The text after the last `c`, or all of `s` when `c` does not occur. */
  function AfterLast(s: string, c: char): (r: string)
    ensures c !in r && |r| <= |s| && s[|s| - |r|..] == r
    decreases |s|
  {
    if |s| == 0 || s[|s| - 1] == c then "" else AfterLast(s[..|s| - 1], c) + [s[|s| - 1]]
  }

  /** An ASCII control byte, which url.Parse refuses anywhere in its input. */
  predicate IsControl(c: char)
  {
    c < ' ' || c == 127 as char
  }

  predicate HasControl(s: string)
  {
    exists i :: 0 <= i < |s| && IsControl(s[i])
  }

  predicate IsLetter(c: char)
  {
    'a' <= c <= 'z' || 'A' <= c <= 'Z'
  }

  /**
   * url.getScheme, scanning from index `i`: a run of letters (and, after the first
   * character, digits, '+', '-' and '.') ended by ':' is a scheme; a ':' in front is an
   * error; any other character means there is no scheme and the whole text is the rest.
   */
  function SchemeSplit(s: string, i: nat): (r: Option<(string, string)>)
    requires i <= |s|
    ensures r.Some? ==> r.value.0 + r.value.1 == s || r.value.0 + ":" + r.value.1 == s
    decreases |s| - i
  {
    if i == |s| then Some(("", s))
    else if IsLetter(s[i]) then SchemeSplit(s, i + 1)
    else if IsDigit(s[i]) || s[i] == '+' || s[i] == '-' || s[i] == '.' then
      if i == 0 then Some(("", s)) else SchemeSplit(s, i + 1)
    else if s[i] == ':' then
      if i == 0 then None
      else
        assert s == s[..i] + ":" + s[i + 1..];
        Some((s[..i], s[i + 1..]))
    else Some(("", s))
  }

  /** url.Parse; None stands for a returned error. */
  function Parse(raw: string): (r: Option<Url>)
  {
    var u := Before(raw, '#');
    if HasControl(u) then None
    else match SchemeSplit(u, 0)
      case None => None
      case Some((scheme, rest)) =>
        ParseRest(ToLowerAscii(scheme), Before(rest, '?'))
  }

  /** The part of url.parse after the scheme and the query are split off. */
  function ParseRest(scheme: string, rest: string): (r: Option<Url>)
    ensures r.Some? ==> r.value.scheme == scheme
    ensures r.Some? && r.value.host != "" ==> HasPrefix(rest, "//")
  {
    if !HasPrefix(rest, "/") && scheme != "" then Some(Url(scheme, "", ""))
    else if !HasPrefix(rest, "/") && ':' in Before(rest, '/') then None
    else if (scheme != "" || !HasPrefix(rest, "///")) && HasPrefix(rest, "//") then
      var authority := Before(rest[2..], '/');
      Some(Url(scheme, AfterLast(authority, '@'), From(rest[2..], '/')))
    else Some(Url(scheme, "", rest))
  }

  /** `Before` stops at the first occurrence of `c`. */
  lemma {:induction false} BeforeStops(a: string, c: char, b: string)
    requires c !in a
    ensures Before(a + [c] + b, c) == a && From(a + [c] + b, c) == [c] + b
    decreases |a|
  {
    if a != [] {
      assert (a + [c] + b)[1..] == a[1..] + [c] + b;
      BeforeStops(a[1..], c, b);
    }
  }

  /** Without `c`, Before keeps everything. */
  lemma {:induction false} BeforeAll(s: string, c: char)
    requires c !in s
    ensures Before(s, c) == s && From(s, c) == ""
    decreases |s|
  {
    if s != [] {
      BeforeAll(s[1..], c);
    }
  }

  /** Without `c`, AfterLast keeps everything. */
  lemma {:induction false} AfterLastAll(s: string, c: char)
    requires c !in s
    ensures AfterLast(s, c) == s
    decreases |s|
  {
    if s != [] {
      assert c !in s[..|s| - 1];
      AfterLastAll(s[..|s| - 1], c);
    }
  }

  /** A run of letters ended by ':' is split off as the scheme. */
  lemma {:induction false} SchemeSplitLetters(s: string, i: nat, j: nat)
    requires 1 <= j < |s| && i <= j && s[j] == ':'
    requires forall k :: 0 <= k < j ==> IsLetter(s[k])
    ensures SchemeSplit(s, i) == Some((s[..j], s[j + 1..]))
    decreases j - i
  {
    if i < j {
      SchemeSplitLetters(s, i + 1, j);
    }
  }

  /** Text whose first character is a letter and that reaches a '/' before any ':' has no scheme. */
  lemma {:induction false} SchemeSplitNone(s: string, i: nat, j: nat)
    requires j < |s| && i <= j && s[j] == '/' && ':' !in s[..j] && (j > 0 ==> IsLetter(s[0]))
    ensures SchemeSplit(s, i) == Some(("", s))
    decreases j - i
  {
    if i < j {
      assert s[i] in s[..j];
      SchemeSplitNone(s, i + 1, j);
    }
  }

  lemma LowerHttps()
    ensures ToLowerAscii("https") == "https"
  {
  }

  /** A text that has only the characters of a plain path segment. */
  predicate IsPlain(s: string)
  {
    '/' !in s && '?' !in s && '#' !in s && '@' !in s && ':' !in s && !HasControl(s)
  }

  /** The path text after the host: "" or a '/'-led text without query, fragment or control bytes. */
  predicate IsPathTail(t: string)
  {
    (t == "" || t[0] == '/') && '?' !in t && '#' !in t && !HasControl(t)
  }

  lemma HasControlConcat(a: string, b: string)
    ensures HasControl(a + b) <==> HasControl(a) || HasControl(b)
  {
    if HasControl(a) {
      var i :| 0 <= i < |a| && IsControl(a[i]);
      assert (a + b)[i] == a[i];
    }
    if HasControl(b) {
      var i :| 0 <= i < |b| && IsControl(b[i]);
      assert (a + b)[|a| + i] == b[i];
    }
    if HasControl(a + b) {
      var i :| 0 <= i < |a + b| && IsControl((a + b)[i]);
      if i >= |a| {
        assert (a + b)[i] == b[i - |a|];
      }
    }
  }

  lemma NotInConcat(a: string, b: string, c: char)
    requires c !in a && c !in b
    ensures c !in a + b
  {
    assert forall x :: x in a + b ==> x in a || x in b;
  }

  /** After a scheme, a rest led by "//" has the host and the path of its authority. */
  lemma ParseRestWithAuthority(scheme: string, rest: string, host: string, path: string)
    requires scheme != "" && HasPrefix(rest, "//")
    requires AfterLast(Before(rest[2..], '/'), '@') == host && From(rest[2..], '/') == path
    ensures ParseRest(scheme, rest) == Some(Url(scheme, host, path))
  {
    assert HasPrefix(rest, "/");
  }

  /** After the scheme, an authority of a plain host is the host, and what follows is the path. */
  lemma ParseRestAuthority(scheme: string, host: string, tail: string)
    requires scheme != "" && IsPlain(host) && IsPathTail(tail)
    ensures ParseRest(scheme, Before("//" + host + tail, '?')) == Some(Url(scheme, host, tail))
  {
    var rest := "//" + host + tail;
    NotInConcat("//", host, '?');
    NotInConcat("//" + host, tail, '?');
    BeforeAll(rest, '?');
    assert HasPrefix(rest, "//") && rest[2..] == host + tail;
    assert Before(host + tail, '/') == host && From(host + tail, '/') == tail by {
      if tail == "" {
        BeforeAll(host, '/');
        assert host + tail == host;
      } else {
        assert host + tail == host + ['/'] + tail[1..];
        BeforeStops(host, '/', tail[1..]);
        assert ['/'] + tail[1..] == tail;
      }
    }
    AfterLastAll(host, '@');
    ParseRestWithAuthority(scheme, rest, host, tail);
  }

  /** Parse, once the fragment, control-byte and scheme steps are known. */
  lemma ParseWithScheme(raw: string, scheme: string, rest: string)
    requires '#' !in raw && !HasControl(raw) && SchemeSplit(raw, 0) == Some((scheme, rest))
    ensures Parse(raw) == ParseRest(ToLowerAscii(scheme), Before(rest, '?'))
  {
    BeforeAll(raw, '#');
  }

  lemma HttpsScheme(rest: string)
    ensures SchemeSplit("https:" + rest, 0) == Some(("https", rest))
  {
    var raw := "https:" + rest;
    SchemeSplitLetters(raw, 0, 5);
    assert raw[..5] == "https" && raw[6..] == rest;
  }

  /**
   * An `https` link to a plain host followed by a path parses to that scheme, host and
   * path.
   */
  lemma ParseHttpsLink(host: string, tail: string)
    requires IsPlain(host) && IsPathTail(tail)
    ensures Parse("https://" + host + tail) == Some(Url("https", host, tail))
  {
    var rest := "//" + host + tail;
    var raw := "https://" + host + tail;
    assert raw == "https:" + rest;
    HasControlConcat("https://", host);
    HasControlConcat("https://" + host, tail);
    assert !HasControl("https://") by {
      assert forall k :: 0 <= k < 8 ==> !IsControl("https://"[k]);
    }
    HttpsScheme(rest);
    ParseWithScheme(raw, "https", rest);
    LowerHttps();
    ParseRestAuthority("https", host, tail);
  }

  lemma FirstCharDiffers(s: string, p: string)
    requires |s| > 0 && |p| > 0 && s[0] != p[0]
    ensures !HasPrefix(s, p)
  {
  }

  /** A rest without a leading '/' and without ':' before its first '/' is a relative path. */
  lemma ParseRestPlain(raw: string)
    requires !HasPrefix(raw, "/") && ':' !in Before(raw, '/')
    ensures ParseRest("", raw) == Some(Url("", "", raw))
  {
    assert !HasPrefix(raw, "//");
  }

  /** A rest that starts with a host name, not with '/', is a relative path. */
  lemma ParseRestRelative(host: string, tail: string)
    requires IsPlain(host) && host != "" && IsPathTail(tail) && tail != ""
    ensures ParseRest("", Before(host + tail, '?')) == Some(Url("", "", host + tail))
  {
    var raw := host + tail;
    NotInConcat(host, tail, '?');
    BeforeAll(raw, '?');
    assert Before(raw, '/') == host by {
      assert raw == host + ['/'] + tail[1..];
      BeforeStops(host, '/', tail[1..]);
    }
    assert !HasPrefix(raw, "/") by {
      assert raw[0] == host[0];
      FirstCharDiffers(raw, "/");
    }
    ParseRestPlain(raw);
  }

  /** A link without a scheme parses to a path only: the host stays empty. */
  lemma ParseWithoutScheme(host: string, tail: string)
    requires IsPlain(host) && host != "" && IsLetter(host[0]) && IsPathTail(tail) && tail != ""
    ensures Parse(host + tail) == Some(Url("", "", host + tail))
  {
    var raw := host + tail;
    HasControlConcat(host, tail);
    assert raw[..|host|] == host && raw[|host|] == '/';
    SchemeSplitNone(raw, 0, |host|);
    ParseWithScheme(raw, "", raw);
    ParseRestRelative(host, tail);
  }
}
