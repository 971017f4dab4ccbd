/**
 * Atom identifiers of the form `/chain/residue_number/residue_name/atom_name/`
 * and the residue labels `chain:resnameresnum` built from them.
 *
 * Both scripts parse a path the same way: strip every leading and trailing
 * `/`, split on `/` (Python's `str.split`, which keeps empty parts), demand
 * at least four parts and keep the first four.
 */
module AtomPaths {
  import opened JsonValue

  const Slash: char := '/'

  datatype AtomId = AtomId(chain: string, resnum: string, resname: string, atom: string)

  /** Number of occurrences of `/` in `s`. */
  function Slashes(s: string): nat
  {
    if |s| == 0 then 0 else (if s[0] == Slash then 1 else 0) + Slashes(s[1..])
  }

  predicate NoSlash(s: string)
  {
    forall i :: 0 <= i < |s| ==> s[i] != Slash
  }

  /** A string made only of `n` slashes. */
  function SlashRun(n: nat): (r: string)
    ensures |r| == n && forall i :: 0 <= i < n ==> r[i] == Slash
  {
    if n == 0 then [] else [Slash] + SlashRun(n - 1)
  }

  function StripLeft(s: string): (r: string)
    ensures exists k: nat :: s == SlashRun(k) + r
    ensures r == [] || r[0] != Slash
  {
    if |s| > 0 && s[0] == Slash then
      var r := StripLeft(s[1..]);
      ghost var k: nat :| s[1..] == SlashRun(k) + r;
      assert s == SlashRun(k + 1) + r;
      r
    else
      assert s == SlashRun(0) + s;
      s
  }

  function StripRight(s: string): (r: string)
    ensures exists k: nat :: s == r + SlashRun(k)
    ensures r == [] || r[|r| - 1] != Slash
  {
    if |s| > 0 && s[|s| - 1] == Slash then
      var r := StripRight(s[..|s| - 1]);
      ghost var k: nat :| s[..|s| - 1] == r + SlashRun(k);
      assert SlashRun(k + 1) == SlashRun(k) + [Slash] by { SlashRunSnoc(k); }
      assert s == s[..|s| - 1] + [Slash];
      r
    else
      assert s == s + SlashRun(0);
      s
  }

  lemma {:induction false} SlashRunSnoc(k: nat)
    ensures SlashRun(k + 1) == SlashRun(k) + [Slash]
  {
    if k > 0 { SlashRunSnoc(k - 1); }
  }

  /**
   * `s.strip('/')`: the result neither starts nor ends with `/`, and
   * `s` is the result surrounded by runs of slashes.
   */
  function Strip(s: string): (r: string)
    ensures exists i: nat, j: nat :: s == SlashRun(i) + r + SlashRun(j)
    ensures r == [] || (r[0] != Slash && r[|r| - 1] != Slash)
  {
    var l := StripLeft(s);
    var r := StripRight(l);
    ghost var i: nat :| s == SlashRun(i) + l;
    ghost var j: nat :| l == r + SlashRun(j);
    assert s == SlashRun(i) + r + SlashRun(j);
    assert r != [] ==> r[0] == l[0];
    r
  }

  /**
   * `s.split('/')`: the maximal slash-free pieces between separators,
   * empty pieces included; there is always one more piece than separators.
   */
  function Split(s: string): (parts: seq<string>)
    ensures |parts| == Slashes(s) + 1
    ensures forall i :: 0 <= i < |parts| ==> NoSlash(parts[i])
  {
    if |s| == 0 then [""]
    else
      var rest := Split(s[1..]);
      if s[0] == Slash then [""] + rest
      else [[s[0]] + rest[0]] + rest[1..]
  }

  /** `'/'.join(parts)`, the inverse of `Split`. */
  function Join(parts: seq<string>): string
    requires |parts| >= 1
  {
    if |parts| == 1 then parts[0] else parts[0] + [Slash] + Join(parts[1..])
  }

  lemma {:induction false} JoinSplit(s: string)
    ensures Join(Split(s)) == s
  {
    if |s| > 0 {
      JoinSplit(s[1..]);
      var rest := Split(s[1..]);
      if s[0] == Slash {
        assert Split(s)[1..] == rest;
      } else {
        var parts := Split(s);
        assert parts[1..] == rest[1..];
        if |rest| == 1 {
          assert s == [s[0]] + rest[0];
        } else {
          assert Join(rest) == rest[0] + [Slash] + Join(rest[1..]);
          assert s == [s[0]] + s[1..];
        }
      }
    }
  }

  /** Splitting a slash-free head followed by a separator peels off that head. */
  lemma {:induction false} SplitHead(p: string, rest: string)
    requires NoSlash(p)
    ensures Split(p + [Slash] + rest) == [p] + Split(rest)
  {
    if |p| == 0 {
      assert p + [Slash] + rest == [Slash] + rest;
      assert ([Slash] + rest)[1..] == rest;
    } else {
      var s := p + [Slash] + rest;
      assert s[1..] == p[1..] + [Slash] + rest;
      SplitHead(p[1..], rest);
      assert [p[0]] + p[1..] == p;
    }
  }

  lemma {:induction false} SplitJoin(parts: seq<string>)
    requires |parts| >= 1
    requires forall i :: 0 <= i < |parts| ==> NoSlash(parts[i])
    ensures Split(Join(parts)) == parts
  {
    if |parts| == 1 {
      NoSlashSplit(parts[0]);
    } else {
      SplitJoin(parts[1..]);
      SplitHead(parts[0], Join(parts[1..]));
      assert [parts[0]] + parts[1..] == parts;
    }
  }

  lemma {:induction false} NoSlashSplit(p: string)
    requires NoSlash(p)
    ensures Split(p) == [p]
  {
    if |p| > 0 {
      NoSlashSplit(p[1..]);
      assert [p[0]] + p[1..] == p;
    }
  }

  /**
   * The parsed form of an atom path: `None` exactly when the stripped path
   * has fewer than four `/`-separated parts; otherwise the first four parts,
   * any further parts being ignored.
   */
  function ParseAtomPath(path: string): (r: Option<AtomId>)
    ensures r.Some? <==> Slashes(Strip(path)) >= 3
    ensures r.Some? ==> var parts := Split(Strip(path));
      r.value == AtomId(parts[0], parts[1], parts[2], parts[3])
    ensures r.Some? ==>
      NoSlash(r.value.chain) && NoSlash(r.value.resnum) && NoSlash(r.value.resname) && NoSlash(r.value.atom)
  {
    var parts := Split(Strip(path));
    if |parts| < 4 then None else Some(AtomId(parts[0], parts[1], parts[2], parts[3]))
  }

  /** An empty path (the default for a missing `bgn_atom`) never parses. */
  lemma EmptyPathIsMalformed()
    ensures ParseAtomPath("") == None
  {
    assert Strip("") == [] by {
      var i: nat, j: nat :| "" == SlashRun(i) + Strip("") + SlashRun(j);
    }
  }

  /** The path `/chain/resnum/resname/atom/` as the interaction detector writes it. */
  function FormatAtomPath(a: AtomId): string
  {
    [Slash] + a.chain + [Slash] + a.resnum + [Slash] + a.resname + [Slash] + a.atom + [Slash]
  }

  predicate WellFormed(a: AtomId)
  {
    NoSlash(a.chain) && NoSlash(a.resnum) && NoSlash(a.resname) && NoSlash(a.atom)
    && a.chain != [] && a.atom != []
  }

  /** Parsing a formatted path gives back the atom. */
  lemma {:induction false} ParseFormat(a: AtomId)
    requires WellFormed(a)
    ensures ParseAtomPath(FormatAtomPath(a)) == Some(a)
  {
    var parts := [a.chain, a.resnum, a.resname, a.atom];
    assert forall i :: 0 <= i < |parts| ==> NoSlash(parts[i]);
    SplitJoin(parts);
    FormatFramed(a);
    StripFramed(Join(parts));
  }

  /** A formatted path is the joined parts framed by one slash on each side. */
  lemma FormatFramed(a: AtomId)
    requires WellFormed(a)
    ensures var body := Join([a.chain, a.resnum, a.resname, a.atom]);
      && FormatAtomPath(a) == [Slash] + body + [Slash]
      && |body| > 0 && body[0] != Slash && body[|body| - 1] != Slash
  {
    var tail := [Slash] + a.resnum + [Slash] + a.resname + [Slash];
    var body := a.chain + tail + a.atom;
    JoinFour(a.chain, a.resnum, a.resname, a.atom);
    assert body[0] == a.chain[0];
    assert body[|body| - 1] == a.atom[|a.atom| - 1];
  }

  lemma JoinFour(w: string, x: string, y: string, z: string)
    ensures Join([w, x, y, z]) == w + [Slash] + x + [Slash] + y + [Slash] + z
  {
    var parts := [w, x, y, z];
    assert Join(parts[3..]) == z;
    assert Join(parts[2..]) == y + [Slash] + z;
    assert Join(parts[1..]) == x + [Slash] + y + [Slash] + z;
  }

  /** A body that neither starts nor ends with `/` is what stripping its framing leaves. */
  lemma {:induction false} StripFramed(body: string)
    requires |body| > 0 && body[0] != Slash && body[|body| - 1] != Slash
    ensures Strip([Slash] + body + [Slash]) == body
  {
    var s := [Slash] + body + [Slash];
    assert s[1..] == body + [Slash];
    assert StripLeft(body + [Slash]) == body + [Slash];
    assert StripLeft(s) == body + [Slash];
    assert (body + [Slash])[..|body|] == body;
    assert StripRight(body) == body;
  }

  /** The residue label `chain:resnameresnum` used to identify a residue. */
  function ResidueLabel(a: AtomId): string
  {
    a.chain + ":" + a.resname + a.resnum
  }
}
