/** Relative paths, and the signs that carry them (utilities/tools.cpp:16-39). */
module Paths {
  import opened Bytes

  const SLASH: byte := 47
  const DOT: byte := 46
  const NUL: byte := 0
  const DOT_TEMP: bytes := [46, 116, 101, 109, 112]

  /** The names from the root of a tree to one of its nodes. */
  type Path = seq<bytes>

  predicate ValidName(n: bytes) {
    n != [] && SLASH !in n && NUL !in n && n != [DOT] && n != [DOT, DOT]
  }

  /** A normalised relative path. */
  ghost predicate ValidPath(p: Path) {
    p != [] && forall n <- p :: ValidName(n)
  }

  /** The generic form of a path as the server derives it: each name behind a slash. */
  function Text(p: Path): bytes {
    if p == [] then [] else Text(Front(p)) + [SLASH] + Last(p)
  }

  function LastIndexOf(s: bytes, c: byte): (r: Option<nat>)
    ensures r.None? <==> c !in s
    ensures r.Some? ==> r.value < |s| && s[r.value] == c && c !in s[r.value + 1..]
  {
    if s == [] then None
    else if Last(s) == c then Some(|s| - 1)
    else
      var r := LastIndexOf(Front(s), c);
      assert r.Some? ==> s[r.value + 1..] == Front(s)[r.value + 1..] + [Last(s)];
      assert s == Front(s) + [Last(s)];
      r
  }

  /** The names of a text: empty ones are skipped. */
  function Parse(s: bytes): Path
    decreases |s|
  {
    match LastIndexOf(s, SLASH)
    case None => Name(s)
    case Some(i) => Parse(s[..i]) + Name(s[i + 1..])
  }

  function Name(s: bytes): Path {
    if s == [] then [] else [s]
  }

  lemma {:induction false} LastIndexUnique(a: bytes, c: byte, b: bytes)
    requires c !in b
    ensures LastIndexOf(a + [c] + b, c) == Some(|a|)
  {
    if b != [] {
      assert Front(a + [c] + b) == a + [c] + Front(b);
      assert Last(b) in b;
      LastIndexUnique(a, c, Front(b));
    }
  }

  lemma ParseSnoc(text: bytes, name: bytes)
    requires ValidName(name)
    ensures Parse(text + [SLASH] + name) == Parse(text) + [name]
  {
    LastIndexUnique(text, SLASH, name);
    assert (text + [SLASH] + name)[..|text|] == text;
    assert (text + [SLASH] + name)[|text| + 1..] == name;
  }

  /** Printing a normalised path and reading it back gives the path. */
  lemma {:induction false} ParseText(p: Path)
    requires forall n <- p :: ValidName(n)
    ensures Parse(Text(p)) == p
  {
    hide Parse, ValidName;
    if p == [] {
      ParseEmpty();
    } else {
      assert Last(p) in p;
      ParseSnoc(Text(Front(p)), Last(p));
      ParseText(Front(p));
    }
  }

  lemma ParseEmpty()
    ensures Parse([]) == []
  {
  }

  /** A path is printed name by name from the root down. */
  lemma {:induction false} TextConcat(p: Path, q: Path, name: bytes)
    ensures Text(p + q) == Text(p) + Text(q)
    ensures Text([name]) == [SLASH] + name
  {
    assert Front([name]) == [] && Text([]) == [];
    if q == [] {
      assert p + q == p;
    } else {
      TextConcat(p, Front(q), name);
      assert Front(p + q) == p + Front(q);
      assert Text(p) + (Text(Front(q)) + [SLASH] + Last(q)) == Text(p) + Text(Front(q)) + [SLASH] + Last(q);
    }
  }

  /** Each name stands behind a single slash. */
  predicate NormalText(t: bytes) {
    t != [] ==>
      && t[0] == SLASH && Last(t) != SLASH
      && forall i :: 0 <= i < |t| - 1 ==> t[i] != SLASH || t[i + 1] != SLASH
  }

  /** A text of that form without its last name is one too. */
  lemma NormalFront(t: bytes, i: nat)
    requires NormalText(t) && i < |t| && t[i] == SLASH && SLASH !in t[i + 1..]
    ensures NormalText(t[..i]) && t[i + 1..] != [] && t == t[..i] + [SLASH] + t[i + 1..]
  {
    if i > 0 {
      assert t[i - 1] != SLASH;
    }
  }

  /** Reading a text of that form and printing the path gives the text. */
  lemma {:induction false} TextParse(t: bytes)
    requires NormalText(t)
    ensures Text(Parse(t)) == t
    decreases |t|
  {
    hide NormalText;
    if t == [] {
      ParseEmpty();
    } else {
      StartsWithSlash(t);
      var i := LastIndexOf(t, SLASH).value;
      NormalFront(t, i);
      TextParse(t[..i]);
      assert Parse(t) == Parse(t[..i]) + [t[i + 1..]];
      assert Front(Parse(t)) == Parse(t[..i]);
    }
  }

  lemma StartsWithSlash(t: bytes)
    requires NormalText(t) && t != []
    ensures t[0] == SLASH
  {
  }

  lemma {:induction false} TextIsNormal(p: Path)
    requires forall n <- p :: ValidName(n)
    ensures NormalText(Text(p))
  {
    if p != [] {
      var front, name, t := Text(Front(p)), Last(p), Text(p);
      assert name in p && name[0] in name && Last(name) in name;
      TextIsNormal(Front(p));
      forall i | 0 <= i < |t| - 1 ensures t[i] != SLASH || t[i + 1] != SLASH {
        if i > |front| {
          assert t[i] == name[i - |front| - 1] && name[i - |front| - 1] in name;
        } else if i == |front| {
          assert t[i + 1] == name[0];
        }
      }
    }
  }

  /** A text is the printed form of a path exactly when it reads as the path and each of its names
      stands behind a single slash. */
  lemma TextExactly(p: Path, t: bytes)
    requires forall n <- p :: ValidName(n)
    ensures t == Text(p) <==> Parse(t) == p && NormalText(t)
  {
    hide Parse, NormalText, Text, ValidName;
    ParseText(p);
    TextIsNormal(p);
    if NormalText(t) {
      TextParse(t);
    }
  }

  /** tools::create_sign: PATH, NUL, DIGEST. */
  function CreateSign(text: bytes, digest: bytes): bytes {
    text + [NUL] + digest
  }

  /** tools::split_sign: the first group is greedy, so the cut is at the last NUL; without one
      the source throws. */
  function SplitSign(sign: bytes): Option<(bytes, bytes)> {
    match LastIndexOf(sign, NUL)
    case None => None
    case Some(i) => Some((sign[..i], sign[i + 1..]))
  }

  /** Splitting is the inverse of joining, and the digest part is what follows the last NUL. */
  lemma SplitSignExact(sign: bytes, text: bytes, digest: bytes)
    ensures SplitSign(sign) == Some((text, digest)) <==> sign == CreateSign(text, digest) && NUL !in digest
  {
    if sign == CreateSign(text, digest) && NUL !in digest {
      LastIndexUnique(text, NUL, digest);
      assert sign[..|text|] == text && sign[|text| + 1..] == digest;
    }
  }

  /** A sign survives the round trip exactly when its digest holds no NUL, whatever its path. */
  lemma SignRoundTrip(text: bytes, digest: bytes)
    ensures SplitSign(CreateSign(text, digest)) == Some((text, digest)) <==> NUL !in digest
  {
    SplitSignExact(CreateSign(text, digest), text, digest);
  }

  /** `path += ".temp"`. */
  function TempOf(p: Path): Path
    requires p != []
  {
    Front(p) + [Last(p) + DOT_TEMP]
  }

  predicate IsTemp(p: Path) {
    p != [] && |Last(p)| >= |DOT_TEMP| && Last(p)[|Last(p)| - |DOT_TEMP|..] == DOT_TEMP
  }

  /** In print the temporary name is the name and ".temp". */
  lemma TempText(p: Path)
    requires p != []
    ensures Text(TempOf(p)) == Text(p) + [DOT, 116, 101, 109, 112]
  {
    assert Front(TempOf(p)) == Front(p) && Last(TempOf(p)) == Last(p) + DOT_TEMP;
  }

  lemma TempIsTemp(p: Path)
    requires p != []
    ensures IsTemp(TempOf(p)) && TempOf(p) != p
  {
    assert Last(TempOf(p)) == Last(p) + DOT_TEMP;
  }

  /** `p` lies somewhere below `d`. */
  predicate Under(d: Path, p: Path) {
    |d| < |p| && p[..|d|] == d
  }

  lemma UnderParent(d: Path, p: Path)
    requires p != []
    ensures Under(d, p) <==> d == Front(p) || Under(d, Front(p))
  {
    if |d| < |p| {
      assert p[..|d|] == Front(p)[..|d|];
    }
  }

  lemma UnderTransitive(a: Path, b: Path, c: Path)
    requires Under(a, b) && Under(b, c)
    ensures Under(a, c)
  {
    assert c[..|a|] == c[..|b|][..|a|];
  }
}
