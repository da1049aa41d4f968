/** Principal names as text: unparsing with escapes, and parsing. */
module Names {
  import opened Bytes
  import opened CcMarshal
  import opened Text
  import opened Wrappers

  const NT_PRINCIPAL := 1
  const BACKSPACE := '\U{8}'

  function Escaped(c: char): string {
    match c
    case '/' => "\\/"
    case '@' => "\\@"
    case '\\' => "\\\\"
    case '\t' => "\\t"
    case '\n' => "\\n"
    case '\0' => "\\0"
    case _ => if c == BACKSPACE then "\\b" else [c]
  }

  function Escape(s: string): string {
    if s == [] then [] else Escaped(s[0]) + Escape(s[1..])
  }

  function Latin1(b: seq<byte>): string { seq(|b|, i requires 0 <= i < |b| => b[i] as char) }

  /** A component that is no UTF-8 text is read byte by byte as Latin-1. */
  function Chars(t: Codec, b: seq<byte>): string {
    var s := t.decode(b);
    if s.Some? then s.value else Latin1(b)
  }

  /** Every component behind a slash. */
  function Slashed(t: Codec, comps: seq<seq<byte>>): string {
    if comps == [] then [] else "/" + Escape(Chars(t, comps[0])) + Slashed(t, comps[1..])
  }

  function UnparseComps(t: Codec, comps: seq<seq<byte>>): string {
    if comps == [] then [] else Escape(Chars(t, comps[0])) + Slashed(t, comps[1..])
  }

  /** `unparse_name`; a realm is a string already. */
  function Unparse(t: Codec, p: Principal, realm: string): string {
    UnparseComps(t, p.comps) + ("@" + Escape(realm))
  }

  // ----- the loops of `unparse_name` -----

  method AppendEscaped(chars: string, start: string) returns (out: string)
    ensures out == start + Escape(chars)
  {
    hide Escaped;
    out := start;
    for i := 0 to |chars|
      invariant out + Escape(chars[i..]) == start + Escape(chars)
    {
      assert chars[i..][0] == chars[i] && chars[i..][1..] == chars[i + 1..];
      out := out + Escaped(chars[i]);
    }
  }

  method UnparseName(t: Codec, p: Principal, realm: string) returns (out: string)
    ensures out == Unparse(t, p, realm)
  {
    hide Chars, Escape;
    out := "";
    var first := true;
    for i := 0 to |p.comps|
      invariant first <==> i == 0
      invariant first ==> out == ""
      invariant !first ==> out + Slashed(t, p.comps[i..]) == UnparseComps(t, p.comps)
    {
      assert p.comps[i..][0] == p.comps[i] && p.comps[i..][1..] == p.comps[i + 1..];
      if !first { out := out + "/"; }
      first := false;
      out := AppendEscaped(Chars(t, p.comps[i]), out);
    }
    assert out == UnparseComps(t, p.comps);
    out := out + "@";
    out := AppendEscaped(realm, out);
  }

  // ----- parsing -----

  function Unescaped(c: char): char {
    match c
    case 'n' => '\n'
    case 't' => '\t'
    case 'b' => BACKSPACE
    case '0' => '\0'
    case _ => c
  }

  /** `comps.last_mut().push(ch)`. */
  function PushLast(comps: seq<string>, x: string): (r: seq<string>)
    requires comps != []
    ensures |r| == |comps|
  {
    comps[..|comps| - 1] + [comps[|comps| - 1] + x]
  }

  /** The scan, from the state the loop has reached. */
  function Scan(s: string, comps: seq<string>, realm: string, inRealm: bool): Option<(seq<string>, string)>
    requires comps != []
    decreases |s|, 0
  {
    if s == [] then Some((comps, realm))
    else if s[0] == '\\' then
      if |s| == 1 then None else Put(Unescaped(s[1]), s[2..], comps, realm, inRealm)
    else if s[0] == '/' && !inRealm then Scan(s[1..], comps + [""], realm, false)
    else if s[0] == '@' && !inRealm then Scan(s[1..], comps, realm, true)
    else if s[0] == '/' || s[0] == '@' then None
    else Put(s[0], s[1..], comps, realm, inRealm)
  }

  function Put(ch: char, rest: string, comps: seq<string>, realm: string, inRealm: bool): Option<(seq<string>, string)>
    requires comps != []
    decreases |rest|, 1
  {
    if inRealm then Scan(rest, comps, realm + [ch], true) else Scan(rest, PushLast(comps, [ch]), realm, false)
  }

  function Encoded(t: Codec, comps: seq<string>): (r: seq<seq<byte>>)
    ensures |r| == |comps|
  {
    seq(|comps|, i requires 0 <= i < |comps| => t.encode(comps[i]))
  }

  /** What follows the scan: the default realm, and the string type's check of each component. */
  function Finish(t: Codec, comps: seq<string>, realm: string, defrealm: Option<string>): Option<(Principal, string)> {
    if realm == "" && defrealm.None? then None
    else if exists c | c in Encoded(t, comps) :: !t.general(c) then None
    else Some((Principal(NT_PRINCIPAL, Encoded(t, comps)), if realm == "" then defrealm.value else realm))
  }

  /** `parse_name`. */
  function Parse(t: Codec, s: string, defrealm: Option<string>): Option<(Principal, string)> {
    var r := Scan(s, [""], "", false);
    if r.None? then None else Finish(t, r.value.0, r.value.1, defrealm)
  }

  /** The loop of `parse_name` over the characters. */
  method ParseName(t: Codec, s: string, defrealm: Option<string>) returns (r: Option<(Principal, string)>)
    ensures r == Parse(t, s, defrealm)
  {
    hide Finish;
    var comps: seq<string>, realm, inRealm, i := [""], "", false, 0;
    while i < |s|
      invariant i <= |s| && comps != []
      invariant Scan(s, [""], "", false) == Scan(s[i..], comps, realm, inRealm)
    {
      assert s[i..][0] == s[i] && s[i..][1..] == s[i + 1..];
      var c := s[i];
      i := i + 1;
      var ch := c;
      if c == '\\' {
        if i == |s| { return None; }
        assert s[i - 1..][1] == s[i] && s[i - 1..][2..] == s[i + 1..];
        ch := Unescaped(s[i]);
        i := i + 1;
      } else if c == '/' && !inRealm {
        comps := comps + [""];
        continue;
      } else if c == '@' && !inRealm {
        inRealm := true;
        continue;
      } else if c == '/' || c == '@' {
        return None;
      }
      if inRealm { realm := realm + [ch]; } else { comps := PushLast(comps, [ch]); }
    }
    r := Finish(t, comps, realm, defrealm);
  }

  // ----- parsing undoes unparsing -----

  lemma ScanEscaped(c: char, rest: string, comps: seq<string>, realm: string, inRealm: bool)
    requires comps != []
    ensures Scan(Escaped(c) + rest, comps, realm, inRealm) == Put(c, rest, comps, realm, inRealm)
  {
    var s := Escaped(c) + rest;
    if |Escaped(c)| == 2 {
      assert s[0] == '\\' && Unescaped(s[1]) == c && s[2..] == rest;
    } else {
      assert s[0] == c && s[1..] == rest;
    }
  }

  lemma {:induction false} ScanEscape(x: string, rest: string, comps: seq<string>, realm: string, inRealm: bool)
    requires comps != []
    ensures Scan(Escape(x) + rest, comps, realm, inRealm)
            == if inRealm then Scan(rest, comps, realm + x, true) else Scan(rest, PushLast(comps, x), realm, false)
    decreases |x|
  {
    hide Escaped, Scan;
    if x == [] {
      assert Escape(x) + rest == rest && realm + x == realm;
      assert comps[|comps| - 1] + x == comps[|comps| - 1];
      assert PushLast(comps, x) == comps;
    } else {
      assert Escape(x) + rest == Escaped(x[0]) + (Escape(x[1..]) + rest);
      ScanEscaped(x[0], Escape(x[1..]) + rest, comps, realm, inRealm);
      assert realm + [x[0]] + x[1..] == realm + x;
      if inRealm {
        ScanEscape(x[1..], rest, comps, realm + [x[0]], true);
      } else {
        var next := PushLast(comps, [x[0]]);
        ScanEscape(x[1..], rest, next, realm, false);
        PushTwice(comps, [x[0]], x[1..]);
        assert [x[0]] + x[1..] == x;
      }
    }
  }

  lemma PushTwice(comps: seq<string>, x: string, y: string)
    requires comps != []
    ensures PushLast(PushLast(comps, x), y) == PushLast(comps, x + y)
  {
    var last := comps[|comps| - 1];
    assert last + x + y == last + (x + y);
  }

  function AllChars(t: Codec, comps: seq<seq<byte>>): (r: seq<string>)
    ensures |r| == |comps|
  {
    seq(|comps|, i requires 0 <= i < |comps| => Chars(t, comps[i]))
  }

  lemma {:induction false} ScanSlashed(t: Codec, comps: seq<seq<byte>>, rest: string, done: seq<string>)
    requires done != []
    ensures Scan(Slashed(t, comps) + rest, done, "", false) == Scan(rest, done + AllChars(t, comps), "", false)
    decreases |comps|
  {
    hide Chars, Escape;
    if comps == [] {
      assert Slashed(t, comps) + rest == rest && done + AllChars(t, comps) == done;
    } else {
      var x := Chars(t, comps[0]);
      var tail := Slashed(t, comps[1..]) + rest;
      assert Slashed(t, comps) + rest == "/" + (Escape(x) + tail);
      assert ("/" + (Escape(x) + tail))[1..] == Escape(x) + tail;
      ScanEscape(x, tail, done + [""], "", false);
      assert "" + x == x;
      assert PushLast(done + [""], x) == done + [x];
      ScanSlashed(t, comps[1..], rest, done + [x]);
      assert done + [x] + AllChars(t, comps[1..]) == done + AllChars(t, comps);
    }
  }

  /** The components a parser finds: no components read back as one empty one. */
  function Found(t: Codec, comps: seq<seq<byte>>): (r: seq<string>)
    ensures r != []
  {
    if comps == [] then [""] else AllChars(t, comps)
  }

  lemma ScanUnparsed(t: Codec, p: Principal, realm: string)
    ensures Scan(Unparse(t, p, realm), [""], "", false) == Some((Found(t, p.comps), realm))
  {
    hide Chars, Escape, Slashed;
    var tail := "@" + Escape(realm);
    assert tail[1..] == Escape(realm) && Escape(realm) + [] == Escape(realm);
    if p.comps == [] {
      assert Unparse(t, p, realm) == tail;
    } else {
      var x := Chars(t, p.comps[0]);
      assert Unparse(t, p, realm) == Escape(x) + (Slashed(t, p.comps[1..]) + tail);
      ScanEscape(x, Slashed(t, p.comps[1..]) + tail, [""], "", false);
      assert "" + x == x;
      assert PushLast([""], x) == [x];
      ScanSlashed(t, p.comps[1..], tail, [x]);
      assert [x] + AllChars(t, p.comps[1..]) == AllChars(t, p.comps);
    }
    ScanEscape(realm, [], Found(t, p.comps), "", true);
    assert "" + realm == realm;
  }

  /** A name text can tell apart: it has components, and they are text. */
  ghost predicate Nameable(t: Codec, p: Principal) {
    p.comps != [] && forall i :: 0 <= i < |p.comps| ==> t.decode(p.comps[i]).Some?
  }

  lemma EncodedChars(t: Codec, p: Principal)
    requires t.Lawful()
    ensures Encoded(t, Found(t, p.comps)) == p.comps <==> Nameable(t, p)
  {
    var back := Encoded(t, Found(t, p.comps));
    if p.comps != [] {
      forall i | 0 <= i < |p.comps|
        ensures back[i] == p.comps[i] <==> t.decode(p.comps[i]).Some?
      {
        assert t.decode(t.encode(Chars(t, p.comps[i]))).Some?;
      }
      if !Nameable(t, p) {
        var i :| 0 <= i < |p.comps| && !t.decode(p.comps[i]).Some?;
        assert back[i] != p.comps[i];
      }
    }
  }

  /** Parsing undoes unparsing, up to the name type, exactly for nameable principals with a realm to find. */
  lemma ParseUndoesUnparse(t: Codec, p: Principal, realm: string, defrealm: Option<string>)
    requires t.Lawful() && forall c | c in p.comps :: t.general(c)
    ensures Parse(t, Unparse(t, p, realm), defrealm) == Some((Principal(NT_PRINCIPAL, p.comps), realm))
            <==> Nameable(t, p) && (realm != "" || defrealm == Some(""))
  {
    hide Codec.Lawful, Unparse, Scan, Encoded, Nameable;
    ScanUnparsed(t, p, realm);
    EncodedChars(t, p);
  }

  /** Among nameable principals the text says which principal and which realm. */
  lemma UnparseInjective(t: Codec, p: Principal, realm: string, q: Principal, srealm: string)
    requires t.Lawful() && Nameable(t, p) && Nameable(t, q) && Unparse(t, p, realm) == Unparse(t, q, srealm)
    ensures p.comps == q.comps && realm == srealm
  {
    hide Codec.Lawful, Unparse, Scan, Encoded, Nameable, Found;
    ScanUnparsed(t, p, realm);
    ScanUnparsed(t, q, srealm);
    EncodedChars(t, p);
    EncodedChars(t, q);
  }

  /** Every other principal shares its text with a nameable one. */
  lemma Twin(t: Codec, p: Principal, realm: string) returns (q: Principal)
    requires t.Lawful() && !Nameable(t, p)
    ensures Nameable(t, q) && q.comps != p.comps && Unparse(t, q, realm) == Unparse(t, p, realm)
  {
    hide Escape;
    q := Principal(p.nameType, Encoded(t, Found(t, p.comps)));
    EncodedChars(t, p);
    forall i | 0 <= i < |q.comps|
      ensures t.decode(q.comps[i]).Some? && Chars(t, q.comps[i]) == Found(t, p.comps)[i]
    {
      assert t.decode(t.encode(Found(t, p.comps)[i])) == Some(Found(t, p.comps)[i]);
    }
    if p.comps == [] {
      EscapeNothing();
      assert Slashed(t, q.comps[1..]) == [];
      assert UnparseComps(t, q.comps) == UnparseComps(t, p.comps);
    } else {
      assert AllChars(t, q.comps) == AllChars(t, p.comps);
      SlashedByChars(t, q.comps[1..], p.comps[1..]);
    }
  }

  lemma EscapeNothing()
    ensures Escape("") == ""
  {
  }

  lemma {:induction false} SlashedByChars(t: Codec, a: seq<seq<byte>>, b: seq<seq<byte>>)
    requires |a| == |b| && forall i | 0 <= i < |a| :: Chars(t, a[i]) == Chars(t, b[i])
    ensures Slashed(t, a) == Slashed(t, b)
    decreases |a|
  {
    if a != [] { SlashedByChars(t, a[1..], b[1..]); }
  }
}
