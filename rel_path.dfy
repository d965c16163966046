/**
 * Classification of data-directory paths (isRelDataFile in fs_model.c).
 *
 * The source recognises relation data files with three sscanf patterns,
 * tried in order:
 *
 *   global/%u                          shared relations
 *   base/%u/%u                         default tablespace
 *   pg_tblspc/%u/<version dir>/%u/%u   other tablespaces
 *
 * A pattern matches when all of its conversions succeed; whatever follows
 * the last conversion (a segment number, a fork suffix) is ignored.
 * Each %u is modelled as a non-empty run of decimal digits, consumed
 * greedily.
 */
module RelPath {
  import opened Wrappers
  import opened PgTypes

  /** The per-version directory inside a tablespace (TABLESPACE_VERSION_DIRECTORY). */
  const TablespaceVersionDirectory: string := "PG_11_201809051"

  const GlobalPrefix: string := "global/"
  const BasePrefix: string := "base/"
  const TablespacePrefix: string := "pg_tblspc/"
  /** The literal text between the tablespace and database numbers. */
  const VersionSeparator: string := "/" + TablespaceVersionDirectory + "/"

  predicate IsDigit(c: char) {
    '0' <= c <= '9'
  }

  /** A non-empty run of decimal digits: the text one %u conversion consumes. */
  predicate IsNumeral(s: string) {
    |s| > 0 && forall i :: 0 <= i < |s| ==> IsDigit(s[i])
  }

  /** The text a %u conversion leaves behind: it cannot start with a digit. */
  predicate EndsNumeral(t: string) {
    |t| == 0 || !IsDigit(t[0])
  }

  /** The decimal value of a string of digits. */
  function NumeralValue(s: string): nat
    requires forall i :: 0 <= i < |s| ==> IsDigit(s[i])
    decreases |s|
  {
    if |s| == 0 then 0
    else
      var last := s[|s| - 1];
      assert IsDigit(last);
      10 * NumeralValue(s[..|s| - 1]) + (last as int - '0' as int)
  }

  /** The length of the longest prefix of s that consists of digits. */
  function DigitRun(s: string): (n: nat)
    ensures n <= |s|
    ensures forall i :: 0 <= i < n ==> IsDigit(s[i])
    ensures n < |s| ==> !IsDigit(s[n])
  {
    if |s| > 0 && IsDigit(s[0]) then 1 + DigitRun(s[1..]) else 0
  }

  /**
   * One %u conversion: the value of the leading digit run and the input
   * that follows it, or None when the input does not start with a digit.
   */
  function ScanUnsigned(s: string): Option<(Oid, string)>
  {
    var n := DigitRun(s);
    if n == 0 then None else Some((NumeralValue(s[..n]), s[n..]))
  }

  /** Matching a literal part of a format: the rest of the input, or None on a mismatch. */
  function ScanLiteral(lit: string, s: string): Option<string>
  {
    if lit <= s then Some(s[|lit|..]) else None
  }

  /** The pattern "global/%u". */
  function MatchGlobal(path: string): (r: Option<RelFileNode>)
    ensures r.Some? ==> GlobalPrefix <= path && r.value.spcNode == GlobalTablespaceOid && r.value.dbNode == InvalidOid
  {
    match ScanLiteral(GlobalPrefix, path)
    case None => None
    case Some(p1) =>
      match ScanUnsigned(p1)
      case None => None
      case Some((rel, _)) => Some(RelFileNode(GlobalTablespaceOid, InvalidOid, rel))
  }

  /** The pattern "base/%u/%u". */
  function MatchBase(path: string): (r: Option<RelFileNode>)
    ensures r.Some? ==> BasePrefix <= path && r.value.spcNode == DefaultTablespaceOid
  {
    match ScanLiteral(BasePrefix, path)
    case None => None
    case Some(p1) =>
      match ScanUnsigned(p1)
      case None => None
      case Some((db, p2)) =>
        match ScanLiteral("/", p2)
        case None => None
        case Some(p3) =>
          match ScanUnsigned(p3)
          case None => None
          case Some((rel, _)) => Some(RelFileNode(DefaultTablespaceOid, db, rel))
  }

  /** The pattern "pg_tblspc/%u/<version dir>/%u/%u". */
  function MatchTablespace(path: string): (r: Option<RelFileNode>)
    ensures r.Some? ==> TablespacePrefix <= path
  {
    match ScanLiteral(TablespacePrefix, path)
    case None => None
    case Some(p1) =>
      match ScanUnsigned(p1)
      case None => None
      case Some((spc, p2)) =>
        match ScanLiteral(VersionSeparator, p2)
        case None => None
        case Some(p3) =>
          match ScanUnsigned(p3)
          case None => None
          case Some((db, p4)) =>
            match ScanLiteral("/", p4)
            case None => None
            case Some(p5) =>
              match ScanUnsigned(p5)
              case None => None
              case Some((rel, _)) => Some(RelFileNode(spc, db, rel))
  }

  /**
   * Does the path look like a relation data file? Some(rnode) when it does
   * (the source returns true and fills *rnode), None otherwise.
   */
  function IsRelDataFile(path: string): (r: Option<RelFileNode>)
    ensures r.Some? ==> GlobalPrefix <= path || BasePrefix <= path || TablespacePrefix <= path
  {
    match MatchGlobal(path)
    case Some(r) => Some(r)
    case None =>
      match MatchBase(path)
      case Some(r) => Some(r)
      case None => MatchTablespace(path)
  }

  /* ----- An independent description of the recognised paths ----- */

  /** A path split into the parts each pattern names, plus the ignored tail. */
  datatype Layout =
    | SharedFile(rel: string, tail: string)
    | DefaultFile(db: string, rel: string, tail: string)
    | TablespaceFile(spc: string, db: string, rel: string, tail: string)

  predicate WellFormed(l: Layout) {
    match l
    case SharedFile(rel, tail) => IsNumeral(rel) && EndsNumeral(tail)
    case DefaultFile(db, rel, tail) => IsNumeral(db) && IsNumeral(rel) && EndsNumeral(tail)
    case TablespaceFile(spc, db, rel, tail) =>
      IsNumeral(spc) && IsNumeral(db) && IsNumeral(rel) && EndsNumeral(tail)
  }

  /** The path a layout stands for. */
  function Render(l: Layout): string {
    match l
    case SharedFile(rel, tail) => GlobalPrefix + (rel + tail)
    case DefaultFile(db, rel, tail) => BasePrefix + (db + ("/" + (rel + tail)))
    case TablespaceFile(spc, db, rel, tail) =>
      TablespacePrefix + (spc + (VersionSeparator + (db + ("/" + (rel + tail)))))
  }

  /** The relation a layout names. */
  function NodeOf(l: Layout): RelFileNode
    requires WellFormed(l)
  {
    match l
    case SharedFile(rel, _) => RelFileNode(GlobalTablespaceOid, InvalidOid, NumeralValue(rel))
    case DefaultFile(db, rel, _) => RelFileNode(DefaultTablespaceOid, NumeralValue(db), NumeralValue(rel))
    case TablespaceFile(spc, db, rel, _) => RelFileNode(NumeralValue(spc), NumeralValue(db), NumeralValue(rel))
  }

  /* ----- Lemmas ----- */

  /** A digit run followed by a non-digit is consumed exactly. */
  lemma {:induction false} DigitRunOfNumeral(n: string, t: string)
    requires forall i :: 0 <= i < |n| ==> IsDigit(n[i])
    requires EndsNumeral(t)
    ensures DigitRun(n + t) == |n|
  {
    if |n| > 0 {
      assert (n + t)[1..] == n[1..] + t;
      DigitRunOfNumeral(n[1..], t);
    } else {
      assert n + t == t;
    }
  }

  /** A %u conversion over a numeral followed by a non-digit yields the numeral's value and the tail. */
  lemma ScanNumeral(n: string, t: string)
    requires IsNumeral(n) && EndsNumeral(t)
    ensures ScanUnsigned(n + t) == Some((NumeralValue(n), t))
  {
    DigitRunOfNumeral(n, t);
    assert (n + t)[..|n|] == n;
    assert (n + t)[|n|..] == t;
  }

  /** What a successful %u conversion consumed is a numeral, and what it left cannot start with a digit. */
  lemma ScanSplits(s: string)
    requires ScanUnsigned(s).Some?
    ensures var k := DigitRun(s);
      && IsNumeral(s[..k]) && EndsNumeral(s[k..]) && s == s[..k] + s[k..]
      && ScanUnsigned(s) == Some((NumeralValue(s[..k]), s[k..]))
  {
  }

  lemma LiteralPrefix(lit: string, rest: string)
    ensures ScanLiteral(lit, lit + rest) == Some(rest)
  {
    assert lit <= lit + rest;
    assert (lit + rest)[|lit|..] == rest;
  }

  lemma NotGlobal(rest: string)
    requires |rest| > 0 && rest[0] != 'g'
    ensures MatchGlobal(rest).None?
  {
    assert GlobalPrefix[0] == 'g';
  }

  lemma NotBase(rest: string)
    requires |rest| > 0 && rest[0] != 'b'
    ensures MatchBase(rest).None?
  {
    assert BasePrefix[0] == 'b';
  }

  lemma SharedFileRecognised(rel: string, tail: string)
    requires IsNumeral(rel) && EndsNumeral(tail)
    ensures MatchGlobal(GlobalPrefix + (rel + tail))
         == Some(RelFileNode(GlobalTablespaceOid, InvalidOid, NumeralValue(rel)))
  {
    LiteralPrefix(GlobalPrefix, rel + tail);
    ScanNumeral(rel, tail);
  }

  lemma DefaultFileRecognised(db: string, rel: string, tail: string)
    requires IsNumeral(db) && IsNumeral(rel) && EndsNumeral(tail)
    ensures IsRelDataFile(BasePrefix + (db + ("/" + (rel + tail))))
         == Some(RelFileNode(DefaultTablespaceOid, NumeralValue(db), NumeralValue(rel)))
  {
    var p2 := "/" + (rel + tail);
    var path := BasePrefix + (db + p2);
    LiteralPrefix(BasePrefix, db + p2);
    ScanNumeral(db, p2);
    LiteralPrefix("/", rel + tail);
    ScanNumeral(rel, tail);
    assert path[0] == 'b';
    NotGlobal(path);
  }

  lemma TablespaceMatched(spc: string, db: string, rel: string, tail: string)
    requires IsNumeral(spc) && IsNumeral(db) && IsNumeral(rel) && EndsNumeral(tail)
    ensures MatchTablespace(TablespacePrefix + (spc + (VersionSeparator + (db + ("/" + (rel + tail))))))
         == Some(RelFileNode(NumeralValue(spc), NumeralValue(db), NumeralValue(rel)))
  {
    var p4 := "/" + (rel + tail);
    var p2 := VersionSeparator + (db + p4);
    LiteralPrefix(TablespacePrefix, spc + p2);
    ScanNumeral(spc, p2);
    LiteralPrefix(VersionSeparator, db + p4);
    ScanNumeral(db, p4);
    LiteralPrefix("/", rel + tail);
    ScanNumeral(rel, tail);
  }

  lemma TablespaceFileRecognised(spc: string, db: string, rel: string, tail: string)
    requires IsNumeral(spc) && IsNumeral(db) && IsNumeral(rel) && EndsNumeral(tail)
    ensures IsRelDataFile(TablespacePrefix + (spc + (VersionSeparator + (db + ("/" + (rel + tail))))))
         == Some(RelFileNode(NumeralValue(spc), NumeralValue(db), NumeralValue(rel)))
  {
    var path := TablespacePrefix + (spc + (VersionSeparator + (db + ("/" + (rel + tail)))));
    TablespaceMatched(spc, db, rel, tail);
    assert path[0] == 'p';
    NotGlobal(path);
    NotBase(path);
  }

  /** Every well-formed layout is recognised, as the relation it names; trailing text is ignored. */
  lemma LayoutIsRecognised(l: Layout)
    requires WellFormed(l)
    ensures IsRelDataFile(Render(l)) == Some(NodeOf(l))
  {
    match l
    case SharedFile(rel, tail) =>
      SharedFileRecognised(rel, tail);
    case DefaultFile(db, rel, tail) =>
      DefaultFileRecognised(db, rel, tail);
    case TablespaceFile(spc, db, rel, tail) =>
      TablespaceFileRecognised(spc, db, rel, tail);
  }

  lemma GlobalMatchHasLayout(path: string) returns (l: Layout)
    requires MatchGlobal(path).Some?
    ensures WellFormed(l) && Render(l) == path && l.SharedFile?
  {
    var p1 := path[|GlobalPrefix|..];
    ScanSplits(p1);
    var k := DigitRun(p1);
    l := SharedFile(p1[..k], p1[k..]);
    assert path == GlobalPrefix + p1;
  }

  lemma BaseMatchHasLayout(path: string) returns (l: Layout)
    requires MatchBase(path).Some?
    ensures WellFormed(l) && Render(l) == path && l.DefaultFile?
  {
    var p1 := ScanLiteral(BasePrefix, path).value;
    LiteralSplits(BasePrefix, path);
    ScanSplits(p1);
    var k := DigitRun(p1);
    var p2 := p1[k..];
    var p3 := ScanLiteral("/", p2).value;
    LiteralSplits("/", p2);
    ScanSplits(p3);
    var j := DigitRun(p3);
    l := DefaultFile(p1[..k], p3[..j], p3[j..]);
  }

  lemma LiteralSplits(lit: string, s: string)
    requires ScanLiteral(lit, s).Some?
    ensures s == lit + ScanLiteral(lit, s).value
  {
  }

  lemma TablespaceMatchHasLayout(path: string) returns (l: Layout)
    requires MatchTablespace(path).Some?
    ensures WellFormed(l) && Render(l) == path && l.TablespaceFile?
  {
    var p1 := ScanLiteral(TablespacePrefix, path).value;
    LiteralSplits(TablespacePrefix, path);
    ScanSplits(p1);
    var k := DigitRun(p1);
    var p2 := p1[k..];
    var p3 := ScanLiteral(VersionSeparator, p2).value;
    LiteralSplits(VersionSeparator, p2);
    ScanSplits(p3);
    var j := DigitRun(p3);
    var p4 := p3[j..];
    var p5 := ScanLiteral("/", p4).value;
    LiteralSplits("/", p4);
    ScanSplits(p5);
    var m := DigitRun(p5);
    l := TablespaceFile(p1[..k], p3[..j], p5[..m], p5[m..]);
  }

  /** Conversely, every recognised path is the rendering of a well-formed layout naming the same relation. */
  lemma RecognisedHasLayout(path: string)
    requires IsRelDataFile(path).Some?
    ensures exists l :: WellFormed(l) && Render(l) == path && IsRelDataFile(path) == Some(NodeOf(l))
  {
    var l: Layout;
    if MatchGlobal(path).Some? {
      l := GlobalMatchHasLayout(path);
    } else if MatchBase(path).Some? {
      l := BaseMatchHasLayout(path);
    } else {
      l := TablespaceMatchHasLayout(path);
    }
    LayoutIsRecognised(l);
  }
}
