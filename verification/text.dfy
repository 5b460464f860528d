/** The standard-library string operations the handlers rely on. */
module Text {

  /** The pieces of a string joined back with the separator between them. */
  function Join(pieces: seq<string>, sep: char): string
    requires |pieces| >= 1
  {
    if |pieces| == 1 then pieces[0] else pieces[0] + [sep] + Join(pieces[1..], sep)
  }

  /** Rust's `str::split` on a single character: an empty input gives one empty
      piece, and every separator starts a new (possibly empty) piece. */
  function Split(s: string, sep: char): (pieces: seq<string>)
    ensures |pieces| >= 1
    ensures forall i :: 0 <= i < |pieces| ==> sep !in pieces[i]
    ensures Join(pieces, sep) == s
    decreases |s|
  {
    if |s| == 0 then [""]
    else
      var rest := Split(s[1..], sep);
      if s[0] == sep then [""] + rest
      else
        JoinHead(rest, sep);
        [[s[0]] + rest[0]] + rest[1..]
  }

  /** Prepending to the first piece prepends to the joined string. */
  lemma JoinHead(pieces: seq<string>, sep: char)
    requires |pieces| >= 1
    ensures forall c :: Join([[c] + pieces[0]] + pieces[1..], sep) == [c] + Join(pieces, sep)
  {
    forall c ensures Join([[c] + pieces[0]] + pieces[1..], sep) == [c] + Join(pieces, sep) {
      var p := [[c] + pieces[0]] + pieces[1..];
      if |pieces| > 1 {
        assert p[1..] == pieces[1..];
      }
    }
  }

  /** Splitting undoes joining whenever no piece contains the separator. */
  lemma {:induction false} SplitJoin(pieces: seq<string>, sep: char)
    requires |pieces| >= 1
    requires forall i :: 0 <= i < |pieces| ==> sep !in pieces[i]
    ensures Split(Join(pieces, sep), sep) == pieces
    decreases |Join(pieces, sep)|
  {
    var s := Join(pieces, sep);
    if |pieces[0]| == 0 {
      if |pieces| == 1 {
      } else {
        var tail := Join(pieces[1..], sep);
        assert s == [sep] + tail;
        assert s[1..] == tail;
        SplitJoin(pieces[1..], sep);
        assert pieces == [""] + pieces[1..];
      }
    } else {
      var c := pieces[0][0];
      var shorter := [pieces[0][1..]] + pieces[1..];
      assert pieces[0] == [c] + pieces[0][1..];
      assert shorter[0] == pieces[0][1..] && shorter[1..] == pieces[1..];
      JoinHead(shorter, sep);
      assert [[c] + shorter[0]] + shorter[1..] == pieces;
      assert s == [c] + Join(shorter, sep);
      assert s[1..] == Join(shorter, sep);
      assert sep !in shorter[0];
      SplitJoin(shorter, sep);
      assert s[0] == c && c != sep;
    }
  }

  /** ASCII upper case. */
  predicate IsAsciiUpper(c: char) { 'A' <= c <= 'Z' }

  /** One character lower-cased the way `to_lowercase` treats ASCII. */
  function LowerChar(c: char): (d: char)
    ensures !IsAsciiUpper(d)
    ensures IsAsciiUpper(c) ==> d as int == c as int + 32
    ensures !IsAsciiUpper(c) ==> d == c
  {
    if IsAsciiUpper(c) then (c as int + 32) as char else c
  }

  /** `str::to_lowercase`, restricted to the ASCII letters. */
  function AsciiLower(s: string): (r: string)
    ensures |r| == |s|
    ensures forall i :: 0 <= i < |s| ==> r[i] == LowerChar(s[i])
  {
    seq(|s|, i requires 0 <= i < |s| => LowerChar(s[i]))
  }

  /** The number of bytes UTF-8 uses for one Unicode scalar value. */
  function Utf8Width(c: char): (n: nat)
    ensures 1 <= n <= 4
    ensures n == 1 <==> c as int < 0x80
  {
    if c as int < 0x80 then 1
    else if c as int < 0x800 then 2
    else if c as int < 0x1_0000 then 3
    else 4
  }

  /** Rust's `str::len`: the length in bytes of the UTF-8 encoding. */
  function Utf8Length(s: string): (n: nat)
    ensures |s| <= n <= 4 * |s|
  {
    if |s| == 0 then 0 else Utf8Width(s[0]) + Utf8Length(s[1..])
  }

  predicate IsAscii(s: string) { forall i :: 0 <= i < |s| ==> s[i] as int < 0x80 }

  /** On ASCII text the byte length is the character count, and conversely a
      string whose byte length equals its character count is ASCII. */
  lemma {:induction false} Utf8LengthAscii(s: string)
    ensures Utf8Length(s) == |s| <==> IsAscii(s)
  {
    if |s| > 0 {
      Utf8LengthAscii(s[1..]);
      if IsAscii(s) {
        assert IsAscii(s[1..]) by {
          forall i | 0 <= i < |s[1..]| ensures s[1..][i] as int < 0x80 { assert s[1..][i] == s[i + 1]; }
        }
      }
      if Utf8Length(s) == |s| {
        assert Utf8Width(s[0]) == 1;
        forall i | 0 <= i < |s| ensures s[i] as int < 0x80 {
          if i > 0 { assert s[i] == s[1..][i - 1]; }
        }
      }
    }
  }
}
