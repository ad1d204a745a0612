/** Path normalisation, convert_nt_path of archs/kom/common/ons.cpp. */
module Paths {

  /** Characters a path buffer holds besides its terminator. */
  const LIMIT := 255

  predicate IsLower(c: char) { 'a' <= c <= 'z' }
  predicate IsUpper(c: char) { 'A' <= c <= 'Z' }

  function Upper(c: char): char { if IsLower(c) then c - 'a' + 'A' else c }

  /** The path starts with a drive letter and a colon. */
  predicate HasDrive(s: string) { |s| >= 2 && (IsLower(s[0]) || IsUpper(s[0])) && s[1] == ':' }

  function Cut(s: string, n: nat): string { if |s| <= n then s else s[..n] }

  /** What follows the drive, without one leading separator. */
  function AfterDrive(s: string): string
    requires |s| >= 2
  {
    if |s| > 2 && (s[2] == '\\' || s[2] == '/') then s[3..] else s[2..]
  }

  function DrivePrefix(d: char): string { if Upper(d) == 'C' then "/" else "/volumes/" + [Upper(d)] + "/" }

  /** Drive letters become mount points; the result fits the buffer. */
  function Expand(s: string): (r: string)
    ensures |r| <= LIMIT
  {
    if HasDrive(s) then DrivePrefix(s[0]) + Cut(AfterDrive(s), LIMIT - |DrivePrefix(s[0])|) else Cut(s, LIMIT)
  }

  function Slash(c: char): char { if c == '\\' then '/' else c }

  function Slashes(s: string): (r: string)
    ensures |r| == |s| && forall i | 0 <= i < |s| :: r[i] == Slash(s[i])
  {
    seq(|s|, i requires 0 <= i < |s| => Slash(s[i]))
  }

  /** A slash right before a slash is dropped. */
  function Squeeze(s: string): string {
    if s == "" then ""
    else if s[0] == '/' && |s| > 1 && s[1] == '/' then Squeeze(s[1..])
    else [s[0]] + Squeeze(s[1..])
  }

  function Convert(s: string): string {
    var t := Squeeze(Slashes(Expand(s)));
    if t == "" then "/" else t
  }

  // ---------------------------------------------------------------- normal paths

  predicate DoubleAt(s: string, i: int) { 0 <= i < |s| - 1 && s[i] == '/' && s[i + 1] == '/' }

  /** No backslash, no doubled slash. */
  ghost predicate Clean(s: string) {
    '\\' !in s && forall i :: !DoubleAt(s, i)
  }

  /** What normalisation produces. */
  ghost predicate Normal(s: string) { 0 < |s| <= LIMIT && Clean(s) && !HasDrive(s) }

  lemma {:induction false} SqueezeClean(s: string)
    requires '\\' !in s
    ensures Clean(Squeeze(s)) && |Squeeze(s)| <= |s|
    ensures s != "" ==> Squeeze(s) != "" && Squeeze(s)[0] == s[0]
    ensures s != "" && s[0] != '/' ==> (|Squeeze(s)| > 1 <==> |s| > 1) && (|s| > 1 ==> Squeeze(s)[1] == s[1])
  {
    if s == "" {
    } else if s[0] == '/' && |s| > 1 && s[1] == '/' {
      SqueezeClean(s[1..]);
    } else {
      SqueezeClean(s[1..]);
      var r, t := Squeeze(s), Squeeze(s[1..]);
      forall i ensures !DoubleAt(r, i) { assert i > 0 ==> !DoubleAt(t, i - 1); }
    }
  }

  /** Squeezing a clean string changes nothing. */
  lemma {:induction false} SqueezeFixes(s: string)
    requires Clean(s)
    ensures Squeeze(s) == s
  {
    if s != "" {
      assert !DoubleAt(s, 0);
      forall i ensures !DoubleAt(s[1..], i) { assert !DoubleAt(s, i + 1); }
      SqueezeFixes(s[1..]);
    }
  }

  lemma NormalIsFixed(s: string)
    requires Normal(s)
    ensures Convert(s) == s
  {
    assert Slashes(s) == s;
    SqueezeFixes(s);
  }

  /** Every path is normalised: no backslash, no doubled slash, at most 255 characters. */
  lemma ConvertIsNormal(s: string)
    ensures Normal(Convert(s))
  {
    var e := Expand(s);
    var t := Slashes(e);
    assert '\\' !in t;
    SqueezeClean(t);
    var c := Convert(s);
    if t != "" && HasDrive(c) {
      assert c == Squeeze(t) && t[0] == c[0] && t[0] != '/';
      assert e[0] == t[0] && e[1] == t[1];
      DriveOnlyFromDrive(s);
    }
  }

  /** Expansion never leaves a drive letter in front. */
  lemma DriveOnlyFromDrive(s: string)
    ensures !HasDrive(Expand(s))
  {
  }

  /** So normalising twice is normalising once. */
  lemma ConvertIdempotent(s: string)
    ensures Convert(Convert(s)) == Convert(s)
  {
    ConvertIsNormal(s);
    NormalIsFixed(Convert(s));
  }

  // ---------------------------------------------------------------- components

  /** The first occurrence of a character, or the length. */
  function IndexOf(s: string, c: char): (i: nat)
    ensures i <= |s| && (i < |s| ==> s[i] == c) && forall k | 0 <= k < i :: s[k] != c
  {
    if s == "" || s[0] == c then 0 else 1 + IndexOf(s[1..], c)
  }

  lemma {:induction false} IndexOfConcat(a: string, b: string, c: char)
    ensures IndexOf(a + b, c) == if IndexOf(a, c) < |a| then IndexOf(a, c) else |a| + IndexOf(b, c)
  {
    if a == "" {
      assert a + b == b;
    } else {
      assert (a + b)[1..] == a[1..] + b;
      IndexOfConcat(a[1..], b, c);
    }
  }

  predicate IsSep(c: char) { c == '/' || c == '\\' }

  /** How many characters there are before the first separator. */
  function Run(s: string): (n: nat)
    ensures n <= |s| && (n < |s| ==> IsSep(s[n])) && forall k | 0 <= k < n :: !IsSep(s[k])
  {
    if s == "" || IsSep(s[0]) then 0 else 1 + Run(s[1..])
  }

  /** The names between separators, of either kind and however many. */
  function Components(s: string): seq<string>
    decreases |s|
  {
    if s == "" then []
    else if IsSep(s[0]) then Components(s[1..])
    else [s[..Run(s)]] + Components(s[Run(s)..])
  }

  lemma RunIs(s: string, n: nat)
    requires n <= |s| && (n < |s| ==> IsSep(s[n])) && forall k | 0 <= k < n :: !IsSep(s[k])
    ensures Run(s) == n
  {
  }

  /** Turning separators keeps the names. */
  lemma {:induction false} SlashesKeep(s: string)
    ensures Components(Slashes(s)) == Components(s)
    decreases |s|
  {
    var t := Slashes(s);
    if s == "" {
    } else if IsSep(s[0]) {
      assert t[1..] == Slashes(s[1..]);
      SlashesKeep(s[1..]);
    } else {
      var n := Run(s);
      RunIs(t, n);
      assert t[..n] == s[..n] && t[n..] == Slashes(s[n..]);
      SlashesKeep(s[n..]);
    }
  }

  lemma {:induction false} SqueezeRun(s: string, n: nat)
    requires n <= |s| && forall k | 0 <= k < n :: s[k] != '/'
    ensures Squeeze(s) == s[..n] + Squeeze(s[n..])
  {
    if n == 0 {
      assert s[n..] == s;
    } else {
      SqueezeRun(s[1..], n - 1);
      assert s[1..][n - 1..] == s[n..] && s[..n] == [s[0]] + s[1..][..n - 1];
    }
  }

  /** So does dropping doubled ones. */
  lemma {:induction false} SqueezeKeeps(s: string)
    requires '\\' !in s
    ensures Components(Squeeze(s)) == Components(s)
    decreases |s|
  {
    var t := Squeeze(s);
    if s == "" {
    } else if s[0] == '/' {
      SqueezeKeeps(s[1..]);
      if !(|s| > 1 && s[1] == '/') { assert t[1..] == Squeeze(s[1..]); }
    } else {
      var n := Run(s);
      SqueezeRun(s, n);
      SqueezeClean(s[n..]);
      RunIs(t, n);
      assert t[..n] == s[..n] && t[n..] == Squeeze(s[n..]);
      SqueezeKeeps(s[n..]);
    }
  }

  /** An extra separator in front, or a name with one, adds nothing, or that name. */
  lemma NameThen(name: string, s: string)
    requires name != "" && forall k | 0 <= k < |name| :: !IsSep(name[k])
    ensures Components("/" + name + "/" + s) == [name] + Components(s)
  {
    var t := "/" + name + "/" + s;
    var u := name + "/" + s;
    assert t[1..] == u && Components(t) == Components(u);
    RunIs(u, |name|);
    assert u[..|name|] == name && u[|name|..] == "/" + s;
    assert Components(u) == [name] + Components("/" + s);
    assert ("/" + s)[1..] == s && Components("/" + s) == Components(s);
  }

  lemma ConvertKeeps(s: string)
    ensures Components(Convert(s)) == Components(Expand(s))
  {
    var t := Slashes(Expand(s));
    assert '\\' !in t;
    SlashesKeep(Expand(s));
    SqueezeKeeps(t);
    if Squeeze(t) == "" {
      assert Components("/") == Components("/"[1..]) == [];
      assert Components(Squeeze(t)) == [];
    }
  }

  /** A path without a drive keeps its names, of its first 255 characters. */
  lemma PlainNames(s: string)
    requires !HasDrive(s)
    ensures Components(Convert(s)) == Components(if |s| <= 255 then s else s[..255])
  {
    ConvertKeeps(s);
  }

  /** Drive C is the root, any other drive u the directory /volumes/u; what follows the colon
      keeps its names, as far as it fits, with or without a separator after the colon. */
  lemma DriveNames(d: char, u: char, rest: string)
    requires IsUpper(u) && (d == u || d as int == u as int + 32) && |rest| <= 244
    ensures var p := Convert([d, ':'] + rest);
            p != "" && p[0] == '/' && Components(p) == (if u == 'C' then [] else ["volumes", [u]]) + Components(rest)
  {
    var s := [d, ':'] + rest;
    var a, e := AfterDrive(s), Expand(s);
    ConvertKeeps(s);
    DriveRest(d, rest);
    DriveExpands(d, u, rest);
    if u == 'C' {
      assert e[1..] == a && Components(e) == Components(a);
    } else {
      VolumeNames(u, a);
    }
    SqueezeClean(Slashes(e));
  }

  lemma DriveRest(d: char, rest: string)
    ensures Components(AfterDrive([d, ':'] + rest)) == Components(rest) && |AfterDrive([d, ':'] + rest)| <= |rest|
  {
    var s := [d, ':'] + rest;
    assert s[2..] == rest;
    if rest != "" && IsSep(rest[0]) { assert AfterDrive(s) == rest[1..]; }
  }

  lemma DriveExpands(d: char, u: char, rest: string)
    requires IsUpper(u) && (d == u || d as int == u as int + 32) && |rest| <= 244
    ensures var s := [d, ':'] + rest; Expand(s) == (if u == 'C' then "/" else "/volumes/" + [u] + "/") + AfterDrive(s)
  {
    DriveRest(d, rest);
    assert Upper(d) == u;
  }

  lemma VolumeNames(u: char, a: string)
    requires IsUpper(u)
    ensures Components("/volumes/" + [u] + "/" + a) == ["volumes", [u]] + Components(a)
  {
    var r := [u] + "/" + a;
    assert "/volumes/" + [u] + "/" + a == "/" + "volumes" + "/" + r;
    NameThen("volumes", r);
    NameThen([u], a);
    var v := "/" + [u] + "/" + a;
    assert v[1..] == r && Components(v) == Components(r);
  }

  // ---------------------------------------------------------------- the code

  /** The drive letter becomes a mount point. */
  method ExpandDrive(s: string) returns (out: string)
    ensures out == Expand(s)
  {
    if HasDrive(s) {
      var drive := if IsLower(s[0]) then s[0] - 'a' + 'A' else s[0];
      out := if drive == 'C' then "/" else "/volumes/" + [drive] + "/";
      assert out == DrivePrefix(s[0]);
      if |s| > 2 && (s[2] == '\\' || s[2] == '/') {
        if |s| > 3 { out := out + Cut(s[3..], LIMIT - |out|); }
      } else if |s| > 2 {
        out := out + Cut(s[2..], LIMIT - |out|);
      }
    } else {
      out := Cut(s, LIMIT);
    }
  }

  /** The loop that turns backslashes round. */
  method TurnSlashes(e: string) returns (out: string)
    ensures out == Slashes(e)
  {
    out := e;
    for i := 0 to |out|
      invariant |out| == |e| && forall k | 0 <= k < |e| :: out[k] == if k < i then Slash(e[k]) else e[k]
    {
      if out[i] == '\\' {
        out := out[i := '/'];
      }
    }
  }

  /** The loop that drops doubled slashes. */
  method SqueezeSlashes(s: string) returns (temp: string)
    ensures temp == Squeeze(s)
  {
    temp := "";
    for i := 0 to |s|
      invariant temp + Squeeze(s[i..]) == Squeeze(s)
    {
      SqueezeStep(s, i);
      if s[i] == '/' && i + 1 < |s| && s[i + 1] == '/' {
        continue;
      }
      assert temp + ([s[i]] + Squeeze(s[i + 1..])) == temp + [s[i]] + Squeeze(s[i + 1..]);
      temp := temp + [s[i]];
    }
    assert s[|s|..] == "";
  }

  lemma SqueezeStep(s: string, i: nat)
    requires i < |s|
    ensures Squeeze(s[i..]) == (if s[i] == '/' && i + 1 < |s| && s[i + 1] == '/' then "" else [s[i]]) + Squeeze(s[i + 1..])
  {
    assert s[i..][1..] == s[i + 1..];
  }

  /** convert_nt_path. */
  method ConvertPath(s: string) returns (out: string)
    ensures out == Convert(s)
  {
    out := ExpandDrive(s);
    out := TurnSlashes(out);
    var temp := SqueezeSlashes(out);
    if temp == "" {
      temp := "/";
    }
    SqueezeLength(out);
    out := Cut(temp, LIMIT);
  }

  lemma {:induction false} SqueezeLength(s: string)
    ensures |Squeeze(s)| <= |s|
  {
    if s != "" { SqueezeLength(s[1..]); }
  }
}
