/** internal/httpmw/realip.go: which address counts as the client of a request. */
module RealIp {
  import opened Wrappers

  /** net.SplitHostPort, net.ParseIP and IPNet.Contains are inputs of the model. */
  datatype NetLib<!Addr, !Net> = NetLib(
    splitHost: string -> Option<string>,
    parse: string -> Option<Addr>,
    inNet: (Net, Addr) -> bool)

  /** `forwarded` are the X-Forwarded-For header lines, first line first. */
  datatype Request = Request(remoteAddr: string, forwarded: seq<string>)

  // ---------------------------------------------------------------- strings

  /** The characters that strings.TrimSpace removes. */
  predicate IsSpace(c: char) {
    || '\t' <= c <= '\r' || c == ' ' || c == '\U{85}' || c == '\U{A0}' || c == '\U{1680}'
    || '\U{2000}' <= c <= '\U{200A}' || c == '\U{2028}' || c == '\U{2029}' || c == '\U{202F}'
    || c == '\U{205F}' || c == '\U{3000}'
  }

  function TrimLeft(s: string): string {
    if s != [] && IsSpace(s[0]) then TrimLeft(s[1..]) else s
  }

  function TrimRight(s: string): string {
    if s != [] && IsSpace(s[|s| - 1]) then TrimRight(s[..|s| - 1]) else s
  }

  function TrimSpace(s: string): string {
    TrimRight(TrimLeft(s))
  }

  /** strings.Split(s, ","): one more piece than there are commas. */
  function SplitComma(s: string): (pieces: seq<string>)
    ensures pieces != []
  {
    if s == [] then [""]
    else
      var rest := SplitComma(s[1..]);
      if s[0] == ',' then [""] + rest else [[s[0]] + rest[0]] + rest[1..]
  }

  /** The line that a proxy writes when it joins two field lines: a comma, then optional white space. */
  function JoinLines(a: string, pad: string, b: string): string {
    a + "," + pad + b
  }

  // ---------------------------------------------------------------- the walk

  predicate Contains<Addr, Net>(lib: NetLib<Addr, Net>, nets: seq<Net>, ip: Addr) {
    nets != [] && (lib.inNet(nets[0], ip) || Contains(lib, nets[1..], ip))
  }

  /** The candidate at one list entry: present, parsable and not a trusted proxy. */
  function Candidate<Addr, Net>(lib: NetLib<Addr, Net>, nets: seq<Net>, entry: string): Option<string> {
    var candidate := TrimSpace(entry);
    if candidate == "" then None
    else
      match lib.parse(candidate)
      case None => None
      case Some(ip) => if Contains(lib, nets, ip) then None else Some(candidate)
  }

  function WalkEntries<Addr, Net>(lib: NetLib<Addr, Net>, nets: seq<Net>, entries: seq<string>): Option<string> {
    if entries == [] then None
    else
      var last := |entries| - 1;
      match Candidate(lib, nets, entries[last])
      case Some(c) => Some(c)
      case None => WalkEntries(lib, nets, entries[..last])
  }

  function WalkLines<Addr, Net>(lib: NetLib<Addr, Net>, nets: seq<Net>, lines: seq<string>): Option<string> {
    if lines == [] then None
    else
      var last := |lines| - 1;
      match WalkEntries(lib, nets, SplitComma(lines[last]))
      case Some(c) => Some(c)
      case None => WalkLines(lib, nets, lines[..last])
  }

  function PeerHost<Addr, Net>(lib: NetLib<Addr, Net>, r: Request): string {
    match lib.splitHost(r.remoteAddr)
    case Some(host) => host
    case None => r.remoteAddr
  }

  predicate PeerTrusted<Addr, Net>(lib: NetLib<Addr, Net>, nets: seq<Net>, r: Request) {
    match lib.parse(PeerHost(lib, r))
    case None => false
    case Some(ip) => Contains(lib, nets, ip)
  }

  function ResolveClientIP<Addr, Net>(lib: NetLib<Addr, Net>, nets: seq<Net>, r: Request): string {
    if !PeerTrusted(lib, nets, r) then PeerHost(lib, r)
    else
      match WalkLines(lib, nets, r.forwarded)
      case Some(c) => c
      case None => PeerHost(lib, r)
  }

  // ---------------------------------------------------------------- what is being computed

  /** All list entries of all header lines, left to right. */
  function Flatten(lines: seq<string>): seq<string> {
    if lines == [] then [] else Flatten(lines[..|lines| - 1]) + SplitComma(lines[|lines| - 1])
  }

  lemma {:induction false} ContainsMeans<Addr, Net>(lib: NetLib<Addr, Net>, nets: seq<Net>, ip: Addr)
    ensures Contains(lib, nets, ip) <==> exists i :: 0 <= i < |nets| && lib.inNet(nets[i], ip)
  {
    if nets != [] {
      ContainsMeans(lib, nets[1..], ip);
      if i :| 0 <= i < |nets| && lib.inNet(nets[i], ip) {
        if i > 0 { assert nets[1..][i - 1] == nets[i]; }
      }
      if i :| 0 <= i < |nets| - 1 && lib.inNet(nets[1..][i], ip) { assert nets[i + 1] == nets[1..][i]; }
    }
  }

  lemma {:induction false} WalkAppend<Addr, Net>(lib: NetLib<Addr, Net>, nets: seq<Net>, a: seq<string>, b: seq<string>)
    ensures WalkEntries(lib, nets, a + b) ==
            (if WalkEntries(lib, nets, b).Some? then WalkEntries(lib, nets, b) else WalkEntries(lib, nets, a))
  {
    if b == [] {
      assert a + b == a;
    } else {
      assert (a + b)[..|a + b| - 1] == a + b[..|b| - 1];
      WalkAppend(lib, nets, a, b[..|b| - 1]);
    }
  }

  lemma {:induction false} WalkLinesIsFlat<Addr, Net>(lib: NetLib<Addr, Net>, nets: seq<Net>, lines: seq<string>)
    ensures WalkLines(lib, nets, lines) == WalkEntries(lib, nets, Flatten(lines))
  {
    if lines != [] {
      var last := |lines| - 1;
      WalkLinesIsFlat(lib, nets, lines[..last]);
      WalkAppend(lib, nets, Flatten(lines[..last]), SplitComma(lines[last]));
    }
  }

  /** Some configured network contains the address. */
  ghost predicate Inside<Addr, Net>(lib: NetLib<Addr, Net>, nets: seq<Net>, ip: Addr) {
    exists i :: 0 <= i < |nets| && lib.inNet(nets[i], ip)
  }

  ghost predicate Blank(s: string) {
    forall c <- s :: IsSpace(c)
  }

  /** `entry` is `c` between white space, and `c` neither starts nor ends with any. */
  ghost predicate Trimmed(entry: string, c: string) {
    && (c != "" ==> !IsSpace(c[0]) && !IsSpace(c[|c| - 1]))
    && exists left, right :: Blank(left) && Blank(right) && entry == left + c + right
  }

  /** The entry reads `c` once trimmed: an address outside all trusted networks. */
  ghost predicate Acceptable<Addr, Net>(lib: NetLib<Addr, Net>, nets: seq<Net>, entry: string, c: string) {
    Trimmed(entry, c) && c != "" && lib.parse(c).Some? && !Inside(lib, nets, lib.parse(c).value)
  }

  lemma {:induction false} TrimLeftLeaves(s: string) returns (left: string)
    ensures Blank(left) && s == left + TrimLeft(s)
    ensures TrimLeft(s) != "" ==> !IsSpace(TrimLeft(s)[0])
  {
    left := "";
    if s != [] && IsSpace(s[0]) {
      left := TrimLeftLeaves(s[1..]);
      left := [s[0]] + left;
    }
  }

  lemma {:induction false} TrimRightLeaves(s: string) returns (right: string)
    ensures Blank(right) && s == TrimRight(s) + right
    ensures TrimRight(s) != "" ==> !IsSpace(TrimRight(s)[|TrimRight(s)| - 1])
  {
    right := "";
    if s != [] && IsSpace(s[|s| - 1]) {
      right := TrimRightLeaves(s[..|s| - 1]);
      right := right + [s[|s| - 1]];
    }
  }

  lemma TrimSpaceTrims(s: string)
    ensures Trimmed(s, TrimSpace(s))
  {
    var left := TrimLeftLeaves(s);
    var right := TrimRightLeaves(TrimLeft(s));
    assert s == left + TrimSpace(s) + right;
    if TrimSpace(s) != "" { assert TrimSpace(s)[0] == TrimLeft(s)[0]; }
  }

  lemma {:induction false} TrimRightPad(c: string, right: string)
    requires Blank(right) && c != "" && !IsSpace(c[|c| - 1])
    ensures TrimRight(c + right) == c
  {
    if right == [] {
      assert c + right == c;
    } else {
      assert (c + right)[..|c + right| - 1] == c + right[..|right| - 1];
      TrimRightPad(c, right[..|right| - 1]);
    }
  }

  lemma TrimmedIsUnique(entry: string, c: string)
    requires Trimmed(entry, c) && c != ""
    ensures TrimSpace(entry) == c
  {
    var left, right :| Blank(left) && Blank(right) && entry == left + c + right;
    assert entry == left + (c + right);
    TrimPad(left, c + right);
    TrimRightPad(c, right);
  }

  /** A candidate is exactly an acceptable entry. */
  lemma CandidateIsAcceptable<Addr, Net>(lib: NetLib<Addr, Net>, nets: seq<Net>, entry: string)
    ensures forall c :: Candidate(lib, nets, entry) == Some(c) <==> Acceptable(lib, nets, entry, c)
  {
    TrimSpaceTrims(entry);
    var t := TrimSpace(entry);
    if lib.parse(t).Some? { ContainsMeans(lib, nets, lib.parse(t).value); }
    forall c | Acceptable(lib, nets, entry, c) ensures Candidate(lib, nets, entry) == Some(c) {
      TrimmedIsUnique(entry, c);
    }
  }

  /** Entry `i` is acceptable, reads `c` once trimmed, and no entry to its right is acceptable. */
  ghost predicate RightmostAt<Addr, Net>(lib: NetLib<Addr, Net>, nets: seq<Net>, entries: seq<string>, i: nat,
                                         c: string) {
    && i < |entries| && Acceptable(lib, nets, entries[i], c)
    && forall j :: i < j < |entries| ==> Unacceptable(lib, nets, entries[j])
  }

  ghost predicate Unacceptable<Addr, Net>(lib: NetLib<Addr, Net>, nets: seq<Net>, entry: string) {
    forall c :: !Acceptable(lib, nets, entry, c)
  }

  ghost predicate NoneAcceptable<Addr, Net>(lib: NetLib<Addr, Net>, nets: seq<Net>, entries: seq<string>) {
    forall i :: 0 <= i < |entries| ==> Unacceptable(lib, nets, entries[i])
  }

  /** The walk finds the rightmost acceptable entry, and nothing only if there is none. */
  lemma {:induction false} WalkIsRightmost<Addr, Net>(lib: NetLib<Addr, Net>, nets: seq<Net>, entries: seq<string>)
      returns (i: nat)
    ensures match WalkEntries(lib, nets, entries)
            case None => NoneAcceptable(lib, nets, entries)
            case Some(c) => RightmostAt(lib, nets, entries, i, c)
  {
    i := 0;
    if entries != [] {
      var last := |entries| - 1;
      CandidateIsAcceptable(lib, nets, entries[last]);
      if Candidate(lib, nets, entries[last]).Some? {
        i := last;
      } else {
        i := WalkIsRightmost(lib, nets, entries[..last]);
        LastRejected(lib, nets, entries, i);
      }
    }
  }

  lemma {:induction false} LastRejected<Addr, Net>(lib: NetLib<Addr, Net>, nets: seq<Net>, entries: seq<string>, i: nat)
    requires entries != [] && Unacceptable(lib, nets, entries[|entries| - 1])
    ensures var before := entries[..|entries| - 1];
            && (NoneAcceptable(lib, nets, before) ==> NoneAcceptable(lib, nets, entries))
            && (forall c :: RightmostAt(lib, nets, before, i, c) ==> RightmostAt(lib, nets, entries, i, c))
  {
    var before := entries[..|entries| - 1];
    assert forall j :: 0 <= j < |before| ==> entries[j] == before[j];
  }

  /** The peer's host, without the port where there is one. */
  ghost predicate IsPeer<Addr, Net>(lib: NetLib<Addr, Net>, r: Request, host: string) {
    lib.splitHost(r.remoteAddr) == Some(host) || (lib.splitHost(r.remoteAddr).None? && host == r.remoteAddr)
  }

  ghost predicate TrustedHost<Addr, Net>(lib: NetLib<Addr, Net>, nets: seq<Net>, host: string) {
    lib.parse(host).Some? && Inside(lib, nets, lib.parse(host).value)
  }

  /** For a trusted peer the client is the rightmost entry of the flattened lists that is an address outside all trusted
      networks, trimmed, or the peer if there is none; an untrusted peer is the client whatever the headers say. */
  lemma ClientIsRightmostUntrusted<Addr, Net>(lib: NetLib<Addr, Net>, nets: seq<Net>, r: Request)
      returns (host: string)
    ensures IsPeer(lib, r, host)
    ensures var entries, client := Flatten(r.forwarded), ResolveClientIP(lib, nets, r);
            if !TrustedHost(lib, nets, host) || NoneAcceptable(lib, nets, entries) then client == host
            else exists i :: RightmostAt(lib, nets, entries, i, client)
  {
    host := PeerHost(lib, r);
    if lib.parse(host).Some? { ContainsMeans(lib, nets, lib.parse(host).value); }
    WalkLinesIsFlat(lib, nets, r.forwarded);
    var entries := Flatten(r.forwarded);
    var i := WalkIsRightmost(lib, nets, entries);
    if PeerTrusted(lib, nets, r) && WalkEntries(lib, nets, entries).Some? {
      var client := ResolveClientIP(lib, nets, r);
      assert RightmostAt(lib, nets, entries, i, client);
      assert Acceptable(lib, nets, entries[i], client);
    }
  }

  /** The pieces with a comma between any two. */
  function Joined(pieces: seq<string>): string {
    if pieces == [] then "" else if |pieces| == 1 then pieces[0] else pieces[0] + "," + Joined(pieces[1..])
  }

  lemma {:induction false} SplitHasNoComma(line: string)
    ensures forall piece <- SplitComma(line) :: ',' !in piece
  {
    if line != [] { SplitHasNoComma(line[1..]); }
  }

  /** The entries of a line contain no comma, and joining them gives the line back. */
  lemma {:induction false} SplitIsExact(line: string)
    ensures Joined(SplitComma(line)) == line && forall piece <- SplitComma(line) :: ',' !in piece
  {
    SplitHasNoComma(line);
    if line != [] {
      SplitIsExact(line[1..]);
      assert line == [line[0]] + line[1..];
      if line[0] == ',' {
        JoinedComma(SplitComma(line[1..]));
      } else {
        JoinedHead(line[0], SplitComma(line[1..]));
      }
    }
  }

  lemma JoinedComma(rest: seq<string>)
    requires rest != []
    ensures Joined([""] + rest) == "," + Joined(rest)
  {
    assert ([""] + rest)[1..] == rest;
  }

  lemma JoinedHead(c: char, rest: seq<string>)
    requires rest != []
    ensures Joined([[c] + rest[0]] + rest[1..]) == [c] + Joined(rest)
  {
    var pieces := [[c] + rest[0]] + rest[1..];
    assert pieces[1..] == rest[1..];
    if |rest| > 1 {
      assert [c] + rest[0] + "," + Joined(rest[1..]) == [c] + (rest[0] + "," + Joined(rest[1..]));
    }
  }

  // ---------------------------------------------------------------- combining header lines

  lemma {:induction false} SplitJoin(a: string, b: string)
    ensures SplitComma(a + "," + b) == SplitComma(a) + SplitComma(b)
  {
    var s := a + "," + b;
    if a == [] {
      assert s[0] == ',' && s[1..] == b;
    } else {
      assert s[0] == a[0] && s[1..] == a[1..] + "," + b;
      SplitJoin(a[1..], b);
      HeadIntoFirst(a[0], SplitComma(a[1..]), SplitComma(b));
    }
  }

  lemma HeadIntoFirst(c: char, x: seq<string>, y: seq<string>)
    requires x != []
    ensures [""] + (x + y) == ([""] + x) + y
    ensures [[c] + (x + y)[0]] + (x + y)[1..] == ([[c] + x[0]] + x[1..]) + y
  {
  }

  lemma {:induction false} SplitPad(pad: string, b: string)
    requires forall c <- pad :: IsSpace(c)
    ensures SplitComma(pad + b) == [pad + SplitComma(b)[0]] + SplitComma(b)[1..]
  {
    if pad == [] {
      assert pad + b == b && [] + SplitComma(b)[0] == SplitComma(b)[0];
    } else {
      assert pad[0] in pad;
      assert (pad + b)[1..] == pad[1..] + b;
      SplitPad(pad[1..], b);
      assert [pad[0]] + (pad[1..] + SplitComma(b)[0]) == pad + SplitComma(b)[0];
    }
  }

  lemma {:induction false} TrimPad(pad: string, s: string)
    requires forall c <- pad :: IsSpace(c)
    ensures TrimSpace(pad + s) == TrimSpace(s)
  {
    if pad == [] {
      assert pad + s == s;
    } else {
      assert (pad + s)[1..] == pad[1..] + s;
      TrimPad(pad[1..], s);
    }
  }

  /** White space after the comma changes no candidate. */
  lemma {:induction false} WalkPadded<Addr, Net>(lib: NetLib<Addr, Net>, nets: seq<Net>, pad: string, b: string)
    requires forall c <- pad :: IsSpace(c)
    ensures WalkEntries(lib, nets, SplitComma(pad + b)) == WalkEntries(lib, nets, SplitComma(b))
  {
    var first, rest := SplitComma(b)[0], SplitComma(b)[1..];
    SplitPad(pad, b);
    TrimPad(pad, first);
    assert SplitComma(b) == [first] + rest;
    WalkAppend(lib, nets, [pad + first], rest);
    WalkAppend(lib, nets, [first], rest);
    assert [first][..0] == [pad + first][..0] == [];
  }

  lemma {:induction false} WalkJoined<Addr, Net>(lib: NetLib<Addr, Net>, nets: seq<Net>, a: string, pad: string,
                                                 b: string)
    requires forall c <- pad :: IsSpace(c)
    ensures WalkEntries(lib, nets, SplitComma(JoinLines(a, pad, b))) ==
              WalkEntries(lib, nets, SplitComma(a) + SplitComma(b))
  {
    assert JoinLines(a, pad, b) == a + "," + (pad + b);
    SplitJoin(a, pad + b);
    WalkPadded(lib, nets, pad, b);
    WalkAppend(lib, nets, SplitComma(a), SplitComma(pad + b));
    WalkAppend(lib, nets, SplitComma(a), SplitComma(b));
  }

  lemma {:induction false} WalkLinesAppend<Addr, Net>(lib: NetLib<Addr, Net>, nets: seq<Net>, a: seq<string>,
          b: seq<string>)
    ensures WalkLines(lib, nets, a + b) ==
            (if WalkLines(lib, nets, b).Some? then WalkLines(lib, nets, b) else WalkLines(lib, nets, a))
  {
    if b == [] {
      assert a + b == a;
    } else {
      assert (a + b)[..|a + b| - 1] == a + b[..|b| - 1];
      WalkLinesAppend(lib, nets, a, b[..|b| - 1]);
    }
  }

  lemma WalkOneLine<Addr, Net>(lib: NetLib<Addr, Net>, nets: seq<Net>, line: string)
    ensures WalkLines(lib, nets, [line]) == WalkEntries(lib, nets, SplitComma(line))
  {
    assert [line][..0] == [];
  }

  lemma {:induction false} WalkTwoLines<Addr, Net>(lib: NetLib<Addr, Net>, nets: seq<Net>, a: string, pad: string,
          b: string)
    requires forall c <- pad :: IsSpace(c)
    ensures WalkLines(lib, nets, [a, b]) == WalkLines(lib, nets, [JoinLines(a, pad, b)])
  {
    assert [a, b] == [a] + [b];
    WalkLinesAppend(lib, nets, [a], [b]);
    WalkOneLine(lib, nets, a);
    WalkOneLine(lib, nets, b);
    WalkOneLine(lib, nets, JoinLines(a, pad, b));
    WalkJoined(lib, nets, a, pad, b);
    WalkAppend(lib, nets, SplitComma(a), SplitComma(b));
  }

  lemma {:induction false} WalkAround<Addr, Net>(lib: NetLib<Addr, Net>, nets: seq<Net>,
                                                 before: seq<string>, x: seq<string>, y: seq<string>,
                                                 after: seq<string>)
    requires WalkLines(lib, nets, x) == WalkLines(lib, nets, y)
    ensures WalkLines(lib, nets, before + x + after) == WalkLines(lib, nets, before + y + after)
  {
    WalkLinesAppend(lib, nets, before, x);
    WalkLinesAppend(lib, nets, before, y);
    WalkLinesAppend(lib, nets, before + x, after);
    WalkLinesAppend(lib, nets, before + y, after);
  }

  /** Joining two adjacent field lines with a comma, as section 5.3 of RFC 9110 allows any recipient to
      do, never changes the client. */
  lemma {:induction false} JoiningLinesChangesNothing<Addr, Net>(lib: NetLib<Addr, Net>, nets: seq<Net>, remote: string,
                                              before: seq<string>, a: string, pad: string, b: string,
                                              after: seq<string>)
    requires forall c <- pad :: IsSpace(c)
    ensures ResolveClientIP(lib, nets, Request(remote, before + [JoinLines(a, pad, b)] + after))
         == ResolveClientIP(lib, nets, Request(remote, before + [a, b] + after))
  {
    var joined, two := [JoinLines(a, pad, b)], [a, b];
    WalkTwoLines(lib, nets, a, pad, b);
    WalkAround(lib, nets, before, joined, two, after);
  }

  /** Once the headers contain an acceptable entry, nothing that a client puts in front of them, be it
      whole lines or entries on the first line, changes the result. */
  lemma {:induction false} PrependingChangesNothing<Addr, Net>(lib: NetLib<Addr, Net>, nets: seq<Net>, remote: string,
                                            injected: seq<string>, prefix: string, first: string, rest: seq<string>)
    requires WalkLines(lib, nets, [first] + rest).Some?
    ensures ResolveClientIP(lib, nets, Request(remote, injected + [prefix + "," + first] + rest))
         == ResolveClientIP(lib, nets, Request(remote, [first] + rest))
  {
    var joined := JoinLines(prefix, "", first);
    assert joined == prefix + "," + first;
    WalkTwoLines(lib, nets, prefix, "", first);
    assert [prefix, first] == [prefix] + [first];
    WalkLinesAppend(lib, nets, [prefix], [first]);
    WalkLinesAppend(lib, nets, injected, [joined]);
    WalkLinesAppend(lib, nets, injected + [joined], rest);
    WalkLinesAppend(lib, nets, [first], rest);
  }
}
