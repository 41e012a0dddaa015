/** The request filter of the REST-client integration test (`GreetResourceFilter`): the client's base
    URI names port 8080, and the filter rewrites every request URI so that it names the port the
    server was actually started on, read off the server's URI text. */
module GreetResourceFilter {
  import opened Text
  import ScenarioText

  /** The port the client's base URI is written against. */
  const FixedPort: string := "8080"

  // ---------------------------------------------------------------- port extraction

  /** `port` is the text of `uri` starting at `start`, where `start` is just after the last `:` (or the
      front, when there is no `:`), and ending just before the next `/` (or at the end, when none
      follows). */
  predicate PortAt(uri: string, start: int, port: string) {
    && 0 <= start <= |uri| - |port|
    && uri[start..start + |port|] == port
    && (start == 0 || uri[start - 1] == ':')
    && (forall i :: start <= i < |uri| ==> uri[i] != ':')
    && '/' !in port
    && (start + |port| == |uri| || uri[start + |port|] == '/')
  }

  /** `extractDynamicPort` on the text of the server's URI: the characters after the last `:` up to
      the first `/` after it, or up to the end when no `/` follows. With no `:` at all the search
      starts at the front. The substring bounds are always in range, so this never fails. */
  function ExtractDynamicPort(uri: string): (port: string)
    ensures ':' !in port && '/' !in port
    ensures exists start :: PortAt(uri, start, port)
  {
    var k := LastIndexOf(uri, ':');
    var slash := IndexOf(uri, '/', k);
    var j := if slash < 0 then |uri| else slash;
    assert k + 1 <= j by {
      if k >= 0 && slash >= 0 { assert uri[k] != uri[slash]; }
    }
    var port := uri[k + 1..j];
    assert forall i :: 0 <= i < |port| ==> port[i] == uri[k + 1 + i];
    assert uri[k + 1..k + 1 + |port|] == port;
    assert PortAt(uri, k + 1, port);
    port
  }

  /** The text after the last `:`, or all of it when there is none, defined from the back. */
  function AfterLastColon(s: string): string {
    if |s| == 0 || s[|s| - 1] == ':' then "" else AfterLastColon(s[..|s| - 1]) + [s[|s| - 1]]
  }

  /** The text before the first `/`, or all of it when there is none, defined from the front. */
  function BeforeFirstSlash(s: string): string {
    if |s| == 0 || s[0] == '/' then "" else [s[0]] + BeforeFirstSlash(s[1..])
  }

  lemma {:induction false} AfterLastColonIsSuffix(s: string)
    ensures var a := AfterLastColon(s);
            |a| <= |s| && a == s[|s| - |a|..]
            && ':' !in a && (|a| == |s| || s[|s| - |a| - 1] == ':')
  {
    if |s| > 0 && s[|s| - 1] != ':' {
      var p := s[..|s| - 1];
      AfterLastColonIsSuffix(p);
      assert s == p + [s[|s| - 1]];
    }
  }

  lemma {:induction false} BeforeFirstSlashIsPrefix(s: string)
    ensures var b := BeforeFirstSlash(s);
            |b| <= |s| && b == s[..|b|] && '/' !in b && (|b| == |s| || s[|b|] == '/')
  {
    if |s| > 0 && s[0] != '/' {
      BeforeFirstSlashIsPrefix(s[1..]);
      assert s == [s[0]] + s[1..];
    }
  }

  /** Only one text satisfies `PortAt`: its start is fixed by the last `:` and its end by the first
      `/` after that. */
  lemma PortAtUnique(uri: string, s1: int, p1: string, s2: int, p2: string)
    requires PortAt(uri, s1, p1) && PortAt(uri, s2, p2)
    ensures s1 == s2 && p1 == p2
  {
    assert s1 == s2;
  }

  /** The port is the part before the first `/` of the part after the last `:`: the index arithmetic
      of `extractDynamicPort` agrees with the two-step reading built from the ends of the string. */
  lemma ExtractDynamicPortSteps(uri: string)
    ensures ExtractDynamicPort(uri) == BeforeFirstSlash(AfterLastColon(uri))
  {
    var a := AfterLastColon(uri);
    AfterLastColonIsSuffix(uri);
    BeforeFirstSlashIsPrefix(a);
    var b := BeforeFirstSlash(a);
    var start := |uri| - |a|;
    assert uri[start..start + |b|] == b;
    assert forall i :: start <= i < |uri| ==> uri[i] == a[i - start];
    assert start + |b| == |uri| || uri[start + |b|] == '/' by {
      if |b| < |a| { assert uri[start + |b|] == a[|b|]; }
    }
    assert PortAt(uri, start, b);
    var port := ExtractDynamicPort(uri);
    var s1 :| PortAt(uri, s1, port);
    PortAtUnique(uri, s1, port, start, b);
  }

  // ---------------------------------------------------------------- replace

  /** `t` occurs in `s` at index `i`. */
  predicate OccursAt(s: string, i: int, t: string) {
    0 <= i && i + |t| <= |s| && s[i..i + |t|] == t
  }

  lemma OccursInTail(s: string, i: int, t: string)
    requires |s| > 0 && OccursAt(s[1..], i, t)
    ensures OccursAt(s, i + 1, t)
  {
    assert s[1..][i..i + |t|] == s[i + 1..i + 1 + |t|];
  }

  lemma OccursAfterPrefix(s: string, n: nat, i: int, t: string)
    requires n <= |s| && OccursAt(s[n..], i, t)
    ensures OccursAt(s, i + n, t)
  {
    assert s[n..][i..i + |t|] == s[i + n..i + n + |t|];
  }

  /** Java's `String.replace(target, replacement)` for a non-empty target: scans from the front and
      replaces each occurrence, resuming the scan after the replaced text, so occurrences never
      overlap. A string without the target is returned unchanged, and so is every string when the
      replacement is the target itself. */
  function ReplaceAll(s: string, target: string, replacement: string): (r: string)
    requires |target| > 0
    ensures (forall i :: 0 <= i <= |s| ==> !OccursAt(s, i, target)) ==> r == s
    ensures replacement == target ==> r == s
    decreases |s|
  {
    if |s| < |target| then s
    else if s[..|target|] == target then
      var rest := s[|target|..];
      var r := replacement + ReplaceAll(rest, target, replacement);
      assert OccursAt(s, 0, target);
      assert replacement == target ==> r == s by {
        if replacement == target { assert s == target + rest; }
      }
      r
    else
      var rest := s[1..];
      var r := [s[0]] + ReplaceAll(rest, target, replacement);
      assert (forall i :: 0 <= i <= |s| ==> !OccursAt(s, i, target))
             ==> (forall i :: 0 <= i <= |rest| ==> !OccursAt(rest, i, target)) by {
        forall i | 0 <= i <= |rest| && OccursAt(rest, i, target) {
          OccursInTail(s, i, target);
        }
      }
      assert s == [s[0]] + rest;
      r
  }

  lemma ReplaceMatch(s: string, target: string, replacement: string)
    requires |target| > 0 && OccursAt(s, 0, target)
    ensures ReplaceAll(s, target, replacement) == replacement + ReplaceAll(s[|target|..], target, replacement)
  {
  }

  lemma ReplaceSkip(s: string, target: string, replacement: string)
    requires |target| > 0 && |s| > 0 && !OccursAt(s, 0, target)
    ensures ReplaceAll(s, target, replacement) == [s[0]] + ReplaceAll(s[1..], target, replacement)
  {
  }

  /** The leftmost occurrence is the one replaced: text before it is kept as it is, and the scan
      carries on after it. Together with the unchanged case this pins down every result. */
  lemma {:induction false} ReplaceLeftmost(a: string, b: string, target: string, replacement: string)
    requires |target| > 0
    requires forall i :: 0 <= i < |a| ==> !OccursAt(a + target + b, i, target)
    ensures ReplaceAll(a + target + b, target, replacement) == a + replacement + ReplaceAll(b, target, replacement)
    decreases |a|
  {
    var s := a + target + b;
    if |a| == 0 {
      assert s == target + b;
      assert OccursAt(s, 0, target);
      assert s[|target|..] == b;
      ReplaceMatch(s, target, replacement);
    } else {
      var tail := a[1..];
      var u := tail + target + b;
      assert s[1..] == u;
      forall i | 0 <= i < |tail|
        ensures !OccursAt(u, i, target)
      {
        if OccursAt(u, i, target) {
          OccursInTail(s, i, target);
          assert false;
        }
      }
      ReplaceSkip(s, target, replacement);
      ReplaceLeftmost(tail, b, target, replacement);
      AppendAssoc([a[0]], tail, replacement + ReplaceAll(b, target, replacement));
      assert a == [a[0]] + tail;
      AppendAssoc(a, replacement, ReplaceAll(b, target, replacement));
    }
  }

  /** The URI `filter` installs: every `8080` in the request URI replaced by the port. */
  function Filter(requestUri: string, port: string): (fixed: string)
    ensures (forall i :: 0 <= i <= |requestUri| ==> !OccursAt(requestUri, i, FixedPort)) ==> fixed == requestUri
    ensures port == FixedPort ==> fixed == requestUri
  {
    ReplaceAll(requestUri, FixedPort, port)
  }

  /** A request URI naming port 8080 once, with no other occurrence before it, is rewritten at that
      place only: the host part and the path around it are kept. */
  lemma FilterRewritesPort(host: string, path: string, port: string)
    requires forall i :: 0 <= i < |host| ==> !OccursAt(host + FixedPort + path, i, FixedPort)
    requires forall i :: 0 <= i <= |path| ==> !OccursAt(path, i, FixedPort)
    ensures Filter(host + FixedPort + path, port) == host + port + path
  {
    ReplaceLeftmost(host, path, FixedPort, port);
  }

  /** Without a `:` or a `/`, the whole text is taken as the port. */
  lemma NoColonNoPort(uri: string)
    requires ':' !in uri && '/' !in uri
    ensures ExtractDynamicPort(uri) == uri
  {
    assert LastIndexOf(uri, ':') == -1;
    assert IndexOf(uri, '/', -1) == -1;
  }

  /** A server URI of the form `<scheme and host>:<port><path>`, whose path is empty or starts with
      `/` and holds no `:`, yields exactly its port. */
  lemma PortOfServerUri(host: string, port: string, path: string)
    requires ':' !in port && '/' !in port && ':' !in path
    requires |path| == 0 || path[0] == '/'
    ensures ExtractDynamicPort(host + ":" + port + path) == port
  {
    var uri := host + ":" + port + path;
    var start := |host| + 1;
    assert uri[start..start + |port|] == port;
    assert forall i :: start <= i < |uri| ==> uri[i] != ':' by {
      forall i | start <= i < |uri| ensures uri[i] != ':' {
        if i < start + |port| { assert uri[i] == port[i - start]; }
        else { assert uri[i] == path[i - start - |port|]; }
      }
    }
    assert start + |port| < |uri| ==> uri[start + |port|] == path[0];
    assert PortAt(uri, start, port);
    var found := ExtractDynamicPort(uri);
    var s1 :| PortAt(uri, s1, found);
    PortAtUnique(uri, s1, found, start, port);
  }

  /** A text without an `8` holds no `8080`. */
  lemma NoEightNoFixedPort(s: string)
    requires '8' !in s
    ensures forall i :: 0 <= i <= |s| ==> !OccursAt(s, i, FixedPort)
  {
    forall i | 0 <= i <= |s|
      ensures !OccursAt(s, i, FixedPort)
    {
      if i + |FixedPort| <= |s| {
        assert s[i..i + |FixedPort|][0] == s[i];
      }
    }
  }

  /** A request URI `<scheme and host>8080<path>` whose other parts hold no `8` is sent to the given
      port, with the rest of the URI kept. */
  lemma FilterRequestUri(host: string, path: string, port: string)
    requires '8' !in host && '8' !in path
    ensures Filter(host + FixedPort + path, port) == host + port + path
  {
    var s := host + FixedPort + path;
    forall i | 0 <= i < |host|
      ensures !OccursAt(s, i, FixedPort)
    {
      assert s[i] == host[i];
    }
    NoEightNoFixedPort(path);
    FilterRewritesPort(host, path, port);
  }

  /** A request against `localhost:8080` is sent to the port of a server started on 41234. */
  lemma FilterExample()
    ensures Filter("http://localhost:8080/greet", ExtractDynamicPort("http://localhost:41234/"))
            == "http://localhost:41234/greet"
  {
    var host, port, path := "http://localhost", "41234", "/greet";
    ScenarioText.UriPartsText();
    ScenarioText.ServerUriText();
    ScenarioText.RequestUriText();
    PortOfServerUri(host, port, "/");
    FilterRequestUri(host + ":", path, port);
  }
}
