/**
 * The scene-file reader (`Trace.InputStream`): a stream of characters that tracks the
 * line and column it has reached, lets one character be pushed back, and skips blanks
 * and `#` comments. The underlying stream is the sequence of its characters and a cursor.
 */
module InputStreams {
  import opened Wrappers

  /** A position in a scene file: lines and columns count from 1. */
  datatype SourceLocation = SourceLocation(FileName: string, LineNum: int, ColNum: int)

  /** The keywords of the scene language, in the order of their codes 1 to 19. */
  datatype Keyword =
    | New | Material | Plane | Sphere | Diffuse | Specular | Uniform | Checkered | Image
    | Identity | Translation | RotationX | RotationY | RotationZ | Scaling | Camera
    | Orthogonal | Perspective | Float

  /** The lexical tokens of a scene file, each with the place it starts at. */
  datatype Token =
    | KeywordToken(Location: SourceLocation, Keyword: Keyword)
    | IdentifierToken(Location: SourceLocation, Identifier: string)
    | StringToken(Location: SourceLocation, String: string)
    | NumberToken(Location: SourceLocation, Number: real)
    | SymbolToken(Location: SourceLocation, Symbol: char)
    | StopToken(Location: SourceLocation)

  /**
   * Where a location moves when `c` is read. A newline goes to the next line and, since
   * the column is first set to 1 and then counted like any other character, to column 2;
   * a tab adds the tabulation width; any other character adds one column.
   */
  function Moved(loc: SourceLocation, c: char, tabulations: int): SourceLocation {
    if c == '\n' then SourceLocation(loc.FileName, loc.LineNum + 1, 2)
    else if c == '\t' then loc.(ColNum := loc.ColNum + tabulations)
    else loc.(ColNum := loc.ColNum + 1)
  }

  /** Where a location moves when the characters of `s` are read one after the other. */
  function MovedAll(loc: SourceLocation, s: seq<char>, tabulations: int): SourceLocation
    decreases |s|
  {
    if |s| == 0 then loc
    else Moved(MovedAll(loc, s[..|s| - 1], tabulations), s[|s| - 1], tabulations)
  }

  /** The characters that the skipping of blanks passes over. */
  predicate Blank(c: char) {
    c == ' ' || c == '\t' || c == '\n' || c == '\r'
  }

  /** The number of times `c` occurs in `s`. */
  function Count(s: seq<char>, c: char): (n: nat)
    ensures n <= |s|
    decreases |s|
  {
    if |s| == 0 then 0
    else Count(s[..|s| - 1], c) + (if s[|s| - 1] == c then 1 else 0)
  }

  /** The first position of `c` in `s`. */
  function IndexOf(s: seq<char>, c: char): (i: nat)
    requires c in s
    ensures i < |s| && s[i] == c
    ensures forall j :: 0 <= j < i ==> s[j] != c
  {
    if s[0] == c then 0 else 1 + IndexOf(s[1..], c)
  }

  /**
   * The length of the comment `s` starts with: the `#` and every character up to and
   * including the first carriage return after it. A newline does not end a comment.
   */
  function CommentLength(s: seq<char>): (k: nat)
    requires |s| > 0 && s[0] == '#' && '\r' in s[1..]
    ensures 2 <= k <= |s| && s[k - 1] == '\r'
    ensures forall j :: 0 < j < k - 1 ==> s[j] != '\r'
  {
    var i := IndexOf(s[1..], '\r');
    assert forall j :: 0 < j < i + 1 ==> s[j] == s[1..][j - 1];
    i + 2
  }

  /**
   * The skipping of blanks and comments comes to an end on `s`: every comment it enters
   * is closed by a carriage return. At the end of the input inside a comment it reads on
   * for ever.
   */
  predicate SkipEnds(s: seq<char>)
    decreases |s|
  {
    if |s| == 0 then true
    else if Blank(s[0]) then SkipEnds(s[1..])
    else if s[0] == '#' then '\r' in s[1..] && SkipEnds(s[CommentLength(s)..])
    else true
  }

  /**
   * How many characters of `s` the skipping consumes: the leading run of blanks and
   * comments. What follows, if anything, is neither a blank nor a `#`.
   */
  function Skipped(s: seq<char>): (n: nat)
    requires SkipEnds(s)
    ensures n <= |s|
    ensures n < |s| ==> !Blank(s[n]) && s[n] != '#'
    decreases |s|
  {
    if |s| == 0 then 0
    else if Blank(s[0]) then 1 + Skipped(s[1..])
    else if s[0] == '#' then CommentLength(s) + Skipped(s[CommentLength(s)..])
    else 0
  }

  /**
   * `Convert.ToChar(buffer)` as written, with the one-byte array itself as argument: no
   * overload takes an array, so the call binds to `Convert.ToChar(object)`, whose cast to
   * `IConvertible` fails for a `byte[]`.
   */
  function ConvertArrayToChar(buffer: seq<bv8>): (r: Result<char>)
    ensures r.Failure? && r.error == "InvalidCastException"
  {
    Failure("InvalidCastException")
  }

  class InputStream {
    var Input: seq<char>
    var Pos: nat
    var Location: SourceLocation
    var SavedChar: Option<char>
    var SavedLocation: SourceLocation
    var Tabulations: int
    var SavedToken: Option<Token>

    ghost predicate Valid()
      reads this
    {
      Pos <= |Input|
    }

    /** What the next reads will return: the saved character, if any, then the unread input. */
    function Pending(): seq<char>
      requires Valid()
      reads this
    {
      (if SavedChar.Some? then [SavedChar.value] else []) + Input[Pos..]
    }

    /** The constructor that sets every field. */
    constructor Restore(input: seq<char>, location: SourceLocation, savedChar: Option<char>,
                        savedLocation: SourceLocation, tabulations: int, savedToken: Option<Token>)
      ensures Valid() && Input == input && Pos == 0
      ensures Location == location && SavedChar == savedChar && SavedLocation == savedLocation
      ensures Tabulations == tabulations && SavedToken == savedToken
    {
      Input := input;
      Pos := 0;
      Location := location;
      SavedChar := savedChar;
      SavedLocation := savedLocation;
      Tabulations := tabulations;
      SavedToken := savedToken;
    }

    /** `InputStream(stream, filename)`: line 1, column 1, nothing saved, tabs 8 columns wide. */
    constructor(input: seq<char>, fileName: string := "")
      ensures Valid() && Input == input && Pos == 0 && Pending() == input
      ensures Location == SourceLocation(fileName, 1, 1) && SavedLocation == Location
      ensures SavedChar.None? && SavedToken.None? && Tabulations == 8
    {
      Input := input;
      Pos := 0;
      Location := SourceLocation(fileName, 1, 1);
      SavedChar := None;
      SavedLocation := Location;
      Tabulations := 8;
      SavedToken := None;
    }

    /** `update_pos(ch)`: the location moves past `ch`; a null character leaves it. */
    method UpdatePos(ch: Option<char>)
      modifies this
      ensures Location == if ch.Some? then Moved(old(Location), ch.value, Tabulations) else old(Location)
      ensures Input == old(Input) && Pos == old(Pos) && SavedChar == old(SavedChar)
      ensures SavedLocation == old(SavedLocation) && Tabulations == old(Tabulations)
      ensures SavedToken == old(SavedToken)
    {
      if ch.None? {
        return;
      }
      if ch.value == '\n' {
        Location := Location.(LineNum := Location.LineNum + 1);
        Location := Location.(ColNum := 1);
      }
      if ch.value == '\t' {
        Location := Location.(ColNum := Location.ColNum + Tabulations);
      } else {
        Location := Location.(ColNum := Location.ColNum + 1);
      }
    }

    /**
     * `read_char()` with the byte read converted as evidently intended, by
     * `Convert.ToChar(buffer[0])` (see `ReadCharAsWritten` for the conversion as written):
     * the first pending character, or null at the end of the input. A
     * character read is removed from what is pending, the location before it is saved and
     * the location moves past it; at the end nothing changes.
     */
    method ReadChar() returns (ch: Option<char>)
      requires Valid()
      modifies this
      ensures Valid() && Input == old(Input) && Tabulations == old(Tabulations)
      ensures SavedToken == old(SavedToken) && SavedChar.None?
      ensures old(Pending()) == [] ==>
        ch.None? && Pending() == [] && Pos == old(Pos) && Location == old(Location) && SavedLocation == old(SavedLocation)
      ensures old(SavedChar).None? && old(Pos) < |Input| ==> ch == Some(Input[old(Pos)]) && Pos == old(Pos) + 1
      ensures old(SavedChar).Some? ==> Pos == old(Pos)
      ensures old(Pending()) != [] ==>
        ch == Some(old(Pending())[0]) && Pending() == old(Pending())[1..]
        && SavedLocation == old(Location) && Location == Moved(old(Location), ch.value, Tabulations)
    {
      ch := SavedChar;
      if SavedChar.Some? {
        SavedChar := None;
      } else {
        if Pos == |Input| {
          return;
        }
        ch := Some(Input[Pos]);
        Pos := Pos + 1;
      }
      SavedLocation := Location;
      UpdatePos(ch);
    }

    /**
     * `read_char()` as written: a saved character is returned as `ReadChar` returns it and
     * the end of the input gives null, but a byte read from the input is handed to
     * `ConvertArrayToChar`, which throws. The byte has then left the stream, while the
     * location and the saved location stay where they were.
     */
    method ReadCharAsWritten() returns (outcome: Result<Option<char>>)
      requires Valid()
      modifies this
      ensures Valid() && Input == old(Input) && Tabulations == old(Tabulations)
      ensures SavedToken == old(SavedToken) && SavedChar.None?
      ensures old(SavedChar).Some? ==>
        outcome == Success(old(SavedChar)) && Pos == old(Pos) && SavedLocation == old(Location)
        && Location == Moved(old(Location), old(SavedChar).value, Tabulations)
      ensures old(SavedChar).None? && old(Pos) == |Input| ==>
        outcome == Success(None) && Pos == old(Pos) && Location == old(Location) && SavedLocation == old(SavedLocation)
      ensures old(SavedChar).None? && old(Pos) < |Input| ==>
        outcome == Failure("InvalidCastException") && Pos == old(Pos) + 1
        && Location == old(Location) && SavedLocation == old(SavedLocation)
    {
      var ch := SavedChar;
      if SavedChar.Some? {
        SavedChar := None;
      } else {
        if Pos == |Input| {
          return Success(None);
        }
        var buffer: seq<bv8> := [(Input[Pos] as int % 256) as bv8];
        Pos := Pos + 1;
        var converted := ConvertArrayToChar(buffer);
        return Failure(converted.error);
      }
      SavedLocation := Location;
      UpdatePos(ch);
      outcome := Success(ch);
    }

    /**
     * `unread_char(ch)`: with a character already saved it throws `InputStreamError` and
     * changes nothing; otherwise `ch` becomes the first pending character and the location
     * goes back to the one saved by the last read.
     */
    method UnreadChar(ch: Option<char>) returns (outcome: Result<()>)
      requires Valid()
      modifies this
      ensures Valid() && Input == old(Input) && Pos == old(Pos) && Tabulations == old(Tabulations)
      ensures SavedToken == old(SavedToken) && SavedLocation == old(SavedLocation)
      ensures old(SavedChar).Some? ==>
        outcome == Failure("InputStreamError") && SavedChar == old(SavedChar) && Location == old(Location)
      ensures old(SavedChar).None? ==>
        outcome.Success? && SavedChar == ch && Location == old(SavedLocation)
        && Pending() == (if ch.Some? then [ch.value] else []) + old(Pending())
    {
      if SavedChar.Some? {
        return Failure("InputStreamError");
      }
      SavedChar := ch;
      Location := SavedLocation;
      outcome := Success(());
    }

    /**
     * A character read and pushed straight back is pending again, and the location is back
     * where it was before the read. At the end of the input the null read is pushed back.
     */
    method ReadThenUnread() returns (ch: Option<char>)
      requires Valid()
      modifies this
      ensures Valid() && Input == old(Input) && Pending() == old(Pending())
      ensures old(Pending()) != [] ==> ch == Some(old(Pending())[0]) && SavedChar == ch && Location == old(Location)
      ensures old(Pending()) == [] ==> ch.None? && SavedChar.None? && Location == old(SavedLocation)
    {
      ch := ReadChar();
      var _ := UnreadChar(ch);
    }

    /**
     * The first `i` characters of `s` have been read, the last of them by the latest read:
     * nothing is saved, the cursor is `i` past `base`, and the location and the saved
     * location are entries `i` and `i - 1` of the trail `locs`.
     */
    ghost predicate ReadTo(s: seq<char>, locs: seq<SourceLocation>, base: int, i: nat)
      reads this
    {
      Valid() && 0 < i <= |s| && |locs| == |s| + 1 && SavedChar.None? && Pos == base + i
      && Location == locs[i] && SavedLocation == locs[i - 1]
    }

    /** The first `read_char()` of `skip_whitespaces_and_comments`, which reads `s[0]` if there is one. */
    method ReadFirst(ghost s: seq<char>, ghost locs: seq<SourceLocation>, ghost base: int) returns (ch: Option<char>)
      requires Valid() && s == Pending() && locs == Trail(Location, s, Tabulations)
      requires base == Pos - (if SavedChar.Some? then 1 else 0)
      modifies this
      ensures Input == old(Input) && Tabulations == old(Tabulations) && SavedToken == old(SavedToken)
      ensures IsTrail(locs, s, Tabulations) && Aligned(s, Input, base) && locs[0] == old(Location)
      ensures ch.None? ==>
        s == [] && Valid() && Pending() == [] && SavedChar.None? && Location == old(Location)
        && SavedLocation == old(SavedLocation)
      ensures ch.Some? ==> ReadTo(s, locs, base, 1) && ch.value == s[0]
    {
      ch := ReadChar();
      if ch.Some? {
        TrailStep(locs[0], s, Tabulations, 0);
      }
    }

    /** `read_char()` after the first `i` characters of `s`: the next one, or null after the last. */
    method ReadNext(ghost s: seq<char>, ghost locs: seq<SourceLocation>, ghost base: int, ghost i: nat) returns (ch: Option<char>)
      requires ReadTo(s, locs, base, i) && IsTrail(locs, s, Tabulations) && Aligned(s, Input, base)
      modifies this
      ensures Input == old(Input) && Tabulations == old(Tabulations) && SavedToken == old(SavedToken)
      ensures i == |s| ==> ch.None? && ReadTo(s, locs, base, i)
      ensures i < |s| ==> ch == Some(s[i]) && ReadTo(s, locs, base, i + 1)
    {
      ch := ReadChar();
      if i < |s| {
        TrailStep(locs[0], s, Tabulations, i);
      }
    }

    /**
     * The inner loop of `skip_whitespaces_and_comments`, entered after reading the `#` at
     * position `j` of `s`: characters are read up to and including the first carriage return.
     */
    method SkipComment(ghost s: seq<char>, ghost locs: seq<SourceLocation>, ghost base: int, ghost j: nat)
      requires j < |s| && s[j] == '#' && '\r' in s[j..][1..]
      requires ReadTo(s, locs, base, j + 1) && IsTrail(locs, s, Tabulations) && Aligned(s, Input, base)
      modifies this
      ensures Input == old(Input) && Tabulations == old(Tabulations) && SavedToken == old(SavedToken)
      ensures ReadTo(s, locs, base, j + CommentLength(s[j..]))
    {
      ghost var k := j + CommentLength(s[j..]);
      assert s[k - 1] == '\r' by {
        assert s[j..][k - 1 - j] == s[k - 1];
      }
      var c := ReadNext(s, locs, base, j + 1);
      ghost var m: nat := j + 2;
      while c != Some('\r')
        invariant Input == old(Input) && Tabulations == old(Tabulations) && SavedToken == old(SavedToken)
        invariant j + 1 < m <= k && ReadTo(s, locs, base, m) && c == Some(s[m - 1])
        decreases |s| - m
      {
        assert m < k by {
          assert s[m - 1] != '\r';
        }
        c := ReadNext(s, locs, base, m);
        m := m + 1;
      }
      assert m == k by {
        assert s[j..][m - 1 - j] == s[m - 1];
      }
    }

    /**
     * One turn of the loop of `skip_whitespaces_and_comments`, after it read the blank or
     * `#` at position `j` of `s`: the rest of the comment if it was one, then the next read.
     */
    method SkipOne(ch: char, ghost s: seq<char>, ghost locs: seq<SourceLocation>, ghost base: int, ghost j: nat)
      returns (next: Option<char>, ghost consumed: nat)
      requires ReadTo(s, locs, base, j + 1) && IsTrail(locs, s, Tabulations) && Aligned(s, Input, base)
      requires ch == s[j] && (Blank(ch) || ch == '#') && SkipEnds(s[j..])
      modifies this
      ensures Input == old(Input) && Tabulations == old(Tabulations) && SavedToken == old(SavedToken)
      ensures j < consumed <= |s| && SkipEnds(s[consumed..])
      ensures Skipped(s[j..]) == consumed - j + Skipped(s[consumed..])
      ensures consumed == |s| ==> next.None? && ReadTo(s, locs, base, consumed)
      ensures consumed < |s| ==> next == Some(s[consumed]) && ReadTo(s, locs, base, consumed + 1)
    {
      consumed := j + 1;
      if ch == '#' {
        SkipComment(s, locs, base, j);
        consumed := j + CommentLength(s[j..]);
      }
      SkippedStep(s, j, consumed);
      next := ReadNext(s, locs, base, consumed);
    }

    /**
     * The loop of `skip_whitespaces_and_comments()`, entered after the first read of `s`:
     * blanks and comments are consumed until a character that is neither has been read, or
     * until the input ends after a blank or a comment.
     */
    method ConsumeSkippable(first: char, ghost s: seq<char>, ghost locs: seq<SourceLocation>, ghost base: int)
      returns (ch: Option<char>, ghost j: nat)
      requires ReadTo(s, locs, base, 1) && IsTrail(locs, s, Tabulations) && Aligned(s, Input, base)
      requires first == s[0] && SkipEnds(s)
      modifies this
      ensures Input == old(Input) && Tabulations == old(Tabulations) && SavedToken == old(SavedToken)
      ensures j <= |s| && Skipped(s) == j
      ensures ch.None? ==> j == |s| && ReadTo(s, locs, base, j)
      ensures ch.Some? ==> j < |s| && ch.value == s[j] && ReadTo(s, locs, base, j + 1)
    {
      ch := Some(first);
      j := 0;
      while Blank(ch.value) || ch.value == '#'
        invariant Input == old(Input) && Tabulations == old(Tabulations) && SavedToken == old(SavedToken)
        invariant j < |s| && ReadTo(s, locs, base, j + 1) && ch == Some(s[j])
        invariant SkipEnds(s[j..]) && Skipped(s) == j + Skipped(s[j..])
        decreases |s| - j
      {
        var next;
        ghost var consumed;
        next, consumed := SkipOne(ch.value, s, locs, base, j);
        if next.None? {
          assert Skipped(s[consumed..]) == 0;
          ch, j := None, consumed;
          return;
        }
        ch, j := next, consumed;
      }
      SkippedNone(s, j);
    }

    /** `unread_char(ch)` after the first `j + 1` characters of `s`, the last of which is `ch`. */
    method PushBack(ch: char, ghost s: seq<char>, ghost locs: seq<SourceLocation>, ghost base: int, ghost j: nat)
      requires j < |s| && ch == s[j] && ReadTo(s, locs, base, j + 1) && Aligned(s, Input, base)
      modifies this
      ensures Input == old(Input) && Tabulations == old(Tabulations) && SavedToken == old(SavedToken)
      ensures Valid() && Pending() == s[j..] && SavedChar == Some(s[j])
      ensures Location == locs[j] && SavedLocation == locs[j]
    {
      AlignedSuffix(s, Input, base, j + 1);
      ghost var rest := Pending();
      var _ := UnreadChar(Some(ch));
      assert Pending() == [s[j]] + rest == s[j..];
    }

    /**
     * `skip_whitespaces_and_comments()`: the leading blanks and comments are consumed and
     * the character after them is pushed back. The loop over a comment stops only at a
     * carriage return, so the input must close every comment entered. If the input ends
     * after something was consumed, the location is the end's and nothing is pushed back;
     * if nothing was pending at all, the null read is pushed back, which moves the location
     * back to the one saved by the last read.
     */
    method SkipWhitespacesAndComments()
      requires Valid() && SkipEnds(Pending())
      modifies this
      ensures Valid() && Input == old(Input) && Tabulations == old(Tabulations) && SavedToken == old(SavedToken)
      ensures var s, n := old(Pending()), Skipped(old(Pending()));
        Pending() == s[n..] && SavedChar == (if n < |s| then Some(s[n]) else None)
      ensures old(Pending()) == [] ==> Location == old(SavedLocation) && SavedLocation == old(SavedLocation)
      ensures var s, n := old(Pending()), Skipped(old(Pending()));
        s != [] ==> Location == MovedAll(old(Location), s[..n], Tabulations)
      ensures var s, n := old(Pending()), Skipped(old(Pending()));
        s != [] && n < |s| ==> SavedLocation == Location
      ensures var s, n := old(Pending()), Skipped(old(Pending()));
        s != [] && n == |s| ==> SavedLocation == MovedAll(old(Location), s[..n - 1], Tabulations)
    {
      ghost var s := Pending();
      ghost var locs := Trail(Location, s, Tabulations);
      ghost var base := Pos - (if SavedChar.Some? then 1 else 0);
      var ch := ReadFirst(s, locs, base);
      if ch.Some? {
        ghost var j;
        ch, j := ConsumeSkippable(ch.value, s, locs, base);
        if ch.None? {
          assert Pending() == [] == s[j..];
          TrailAt(locs[0], s, Tabulations, j);
          TrailAt(locs[0], s, Tabulations, j - 1);
          return;
        }
        PushBack(ch.value, s, locs, base, j);
        TrailAt(locs[0], s, Tabulations, j);
      } else {
        assert Skipped(s) == 0;
        var _ := UnreadChar(ch);
        assert Pending() == [];
      }
    }
  }

  /** After its first character, `s` is `input` from position `base + 1` on. */
  ghost predicate Aligned(s: seq<char>, input: seq<char>, base: int) {
    -1 <= base && base + |s| == |input| && (|s| > 0 ==> s[1..] == input[base + 1..])
  }

  /** What remains of an aligned `s` after its first `i` characters is the input from `base + i` on. */
  lemma AlignedSuffix(s: seq<char>, input: seq<char>, base: int, i: nat)
    requires Aligned(s, input, base) && 0 < i <= |s|
    ensures s[i..] == input[base + i..]
  {
    assert s[1..][i - 1..] == s[i..];
    assert input[base + 1..][i - 1..] == input[base + i..];
  }

  /** Skipping stops at once on a character that is neither a blank nor a `#`. */
  lemma SkippedNone(s: seq<char>, j: nat)
    requires j < |s| && !Blank(s[j]) && s[j] != '#'
    ensures SkipEnds(s[j..]) && Skipped(s[j..]) == 0
  {
    assert s[j..][0] == s[j];
  }

  /** `locs` is the trail of reading `s` from its first entry on. */
  ghost predicate IsTrail(locs: seq<SourceLocation>, s: seq<char>, tabulations: int) {
    |locs| > 0 && locs == Trail(locs[0], s, tabulations)
  }

  /** The locations reading `s` from `loc` passes through, `loc` first. */
  function Trail(loc: SourceLocation, s: seq<char>, tabulations: int): (locs: seq<SourceLocation>)
    ensures |locs| == |s| + 1 && locs[0] == loc
    decreases |s|
  {
    if |s| == 0 then [loc]
    else
      var init := Trail(loc, s[..|s| - 1], tabulations);
      init + [Moved(init[|s| - 1], s[|s| - 1], tabulations)]
  }

  /** Each entry of the trail is the one before it moved past the next character. */
  lemma {:induction false} TrailStep(loc: SourceLocation, s: seq<char>, tabulations: int, t: nat)
    requires t < |s|
    ensures Trail(loc, s, tabulations)[t + 1] == Moved(Trail(loc, s, tabulations)[t], s[t], tabulations)
    decreases |s|
  {
    if t < |s| - 1 {
      TrailStep(loc, s[..|s| - 1], tabulations, t);
    }
  }

  /** Entry `t` of the trail is where the first `t` characters lead. */
  lemma {:induction false} TrailAt(loc: SourceLocation, s: seq<char>, tabulations: int, t: nat)
    requires t <= |s|
    ensures Trail(loc, s, tabulations)[t] == MovedAll(loc, s[..t], tabulations)
    decreases t
  {
    if t == 0 {
      assert s[..0] == [];
    } else {
      TrailAt(loc, s, tabulations, t - 1);
      TrailStep(loc, s, tabulations, t - 1);
      MovedStep(loc, s, t - 1, tabulations);
    }
  }

  /** Reading one more character moves the location by one more step. */
  lemma MovedStep(loc: SourceLocation, s: seq<char>, i: nat, tabulations: int)
    requires i < |s|
    ensures MovedAll(loc, s[..i + 1], tabulations) == Moved(MovedAll(loc, s[..i], tabulations), s[i], tabulations)
  {
    assert s[..i + 1][..i] == s[..i];
  }

  /** Reading `a` and then `b` moves the location as reading `a + b` does. */
  lemma {:induction false} MovedAllAppend(loc: SourceLocation, a: seq<char>, b: seq<char>, tabulations: int)
    ensures MovedAll(MovedAll(loc, a, tabulations), b, tabulations) == MovedAll(loc, a + b, tabulations)
    decreases |b|
  {
    if |b| == 0 {
      assert a + b == a;
    } else {
      MovedAllAppend(loc, a, b[..|b| - 1], tabulations);
      assert (a + b)[..|a + b| - 1] == a + b[..|b| - 1];
    }
  }

  /** A blank or a whole comment at position `j` is consumed, and the skipping goes on after it. */
  lemma SkippedStep(s: seq<char>, j: nat, consumed: nat)
    requires j < |s| && SkipEnds(s[j..]) && (Blank(s[j]) || s[j] == '#')
    requires Blank(s[j]) ==> consumed == j + 1
    requires s[j] == '#' ==> '\r' in s[j..][1..] && consumed == j + CommentLength(s[j..])
    ensures consumed <= |s| && SkipEnds(s[consumed..])
    ensures Skipped(s[j..]) == consumed - j + Skipped(s[consumed..])
  {
    assert s[j..][consumed - j..] == s[consumed..];
  }

  /** The line number goes up by one for every newline read, and the file name never changes. */
  lemma {:induction false} LinesCounted(loc: SourceLocation, s: seq<char>, tabulations: int)
    ensures MovedAll(loc, s, tabulations).LineNum == loc.LineNum + Count(s, '\n')
    ensures MovedAll(loc, s, tabulations).FileName == loc.FileName
    decreases |s|
  {
    if |s| > 0 {
      LinesCounted(loc, s[..|s| - 1], tabulations);
    }
  }

  /**
   * Inside a line the column goes up by one for every character read and by the
   * tabulation width for every tab.
   */
  lemma {:induction false} ColumnsCounted(loc: SourceLocation, s: seq<char>, tabulations: int)
    requires forall i :: 0 <= i < |s| ==> s[i] != '\n'
    ensures MovedAll(loc, s, tabulations)
      == loc.(ColNum := loc.ColNum + (|s| - Count(s, '\t')) + tabulations * Count(s, '\t'))
    decreases |s|
  {
    if |s| > 0 {
      ColumnsCounted(loc, s[..|s| - 1], tabulations);
    }
  }

  /**
   * After a newline and then `t`, a line without tabs, the column is `2 + |t|`: the
   * first character of a line is counted as column 2.
   */
  lemma ColumnAfterNewline(loc: SourceLocation, t: seq<char>, tabulations: int)
    requires forall i :: 0 <= i < |t| ==> t[i] != '\n' && t[i] != '\t'
    ensures MovedAll(loc, ['\n'] + t, tabulations) == SourceLocation(loc.FileName, loc.LineNum + 1, 2 + |t|)
  {
    MovedAllAppend(loc, ['\n'], t, tabulations);
    assert MovedAll(loc, ['\n'], tabulations) == SourceLocation(loc.FileName, loc.LineNum + 1, 2);
    ColumnsCounted(MovedAll(loc, ['\n'], tabulations), t, tabulations);
    assert Count(t, '\t') == 0 by {
      NoOccurrence(t, '\t');
    }
  }

  /** A character that does not occur is counted zero times. */
  lemma {:induction false} NoOccurrence(s: seq<char>, c: char)
    requires forall i :: 0 <= i < |s| ==> s[i] != c
    ensures Count(s, c) == 0
    decreases |s|
  {
    if |s| > 0 {
      NoOccurrence(s[..|s| - 1], c);
    }
  }

  /** Skipping again right after a skip consumes nothing. */
  lemma SkipIdempotent(s: seq<char>)
    requires SkipEnds(s)
    ensures SkipEnds(s[Skipped(s)..]) && Skipped(s[Skipped(s)..]) == 0
  {
    var n := Skipped(s);
    if n < |s| {
      SkippedNone(s, n);
    } else {
      assert s[n..] == [];
    }
  }

  /**
   * Without comments the skipping always ends and consumes exactly the leading run of
   * blanks.
   */
  lemma {:induction false} SkippedBlanks(s: seq<char>)
    requires forall i :: 0 <= i < |s| ==> s[i] != '#'
    ensures SkipEnds(s)
    ensures forall i :: 0 <= i < Skipped(s) ==> Blank(s[i])
    ensures Skipped(s) < |s| ==> !Blank(s[Skipped(s)])
    decreases |s|
  {
    if |s| > 0 && Blank(s[0]) {
      SkippedBlanks(s[1..]);
      forall i | 0 < i < Skipped(s)
        ensures Blank(s[i])
      {
        assert s[i] == s[1..][i - 1];
      }
    }
  }

  /** A comment that no carriage return closes makes the skipping read on for ever. */
  lemma UnclosedComment(t: seq<char>)
    requires forall i :: 0 <= i < |t| ==> t[i] != '\r'
    ensures !SkipEnds(['#'] + t)
  {
    assert (['#'] + t)[1..] == t;
  }

  /** The line and column of a location. */
  function LineCol(loc: SourceLocation): (int, int) {
    (loc.LineNum, loc.ColNum)
  }

  /** The skip in the reading test consumes three spaces and a newline and lands on line 2, column 2. */
  lemma SkipInTest()
    ensures SkipEnds("   \nd\nef") && Skipped("   \nd\nef") == 4
    ensures MovedAll(SourceLocation("", 1, 4), "   \n", 8) == SourceLocation("", 2, 2)
  {
    var s := "   \nd\nef";
    assert s[1..] == "  \nd\nef" && s[1..][1..] == " \nd\nef" && s[1..][1..][1..] == "\nd\nef";
    assert s[1..][1..][1..][1..] == "d\nef";
    assert SkipEnds("d\nef") && Skipped("d\nef") == 0;
    var loc := SourceLocation("", 1, 4);
    assert MovedAll(loc, "   ", 8) == SourceLocation("", 1, 7) by {
      ColumnsCounted(loc, "   ", 8);
      assert Count("   ", '\t') == 0 by {
        NoOccurrence("   ", '\t');
      }
    }
    assert "   \n"[..3] == "   ";
  }

  /** The reading test's push-back: `a` is read, `A` pushed back in its place and read. */
  method ReadTestPushBack(stream: InputStream) returns (chars: seq<Option<char>>, places: seq<(int, int)>)
    requires stream.Valid() && stream.Pending() == "abc   \nd\nef" && stream.SavedChar.None?
    requires stream.Location == SourceLocation("", 1, 1) && stream.Tabulations == 8
    modifies stream
    ensures stream.Valid() && stream.Pending() == "bc   \nd\nef" && stream.SavedChar.None?
    ensures stream.Location == SourceLocation("", 1, 2) && stream.Tabulations == 8
    ensures chars == [Some('a'), Some('A')]
    ensures places == [(1, 2), (1, 1), (1, 2)]
  {
    var a := stream.ReadChar();
    assert stream.Pending() == "bc   \nd\nef" && stream.SavedLocation == SourceLocation("", 1, 1);
    places := [LineCol(stream.Location)];
    var _ := stream.UnreadChar(Some('A'));
    assert stream.Pending() == "Abc   \nd\nef" && stream.Location == SourceLocation("", 1, 1);
    places := places + [LineCol(stream.Location)];
    var a2 := stream.ReadChar();
    places := places + [LineCol(stream.Location)];
    chars := [a, a2];
  }

  /** The reading test before the skip: `b` and `c`. */
  method ReadTestStart(stream: InputStream) returns (chars: seq<Option<char>>, places: seq<(int, int)>)
    requires stream.Valid() && stream.Pending() == "bc   \nd\nef" && stream.SavedChar.None?
    requires stream.Location == SourceLocation("", 1, 2) && stream.Tabulations == 8
    modifies stream
    ensures stream.Valid() && stream.Pending() == "   \nd\nef" && stream.SavedChar.None?
    ensures stream.Location == SourceLocation("", 1, 4) && stream.Tabulations == 8
    ensures chars == [Some('b'), Some('c')]
    ensures places == [(1, 3), (1, 4)]
  {
    var b := stream.ReadChar();
    assert stream.Pending() == "c   \nd\nef";
    places := [LineCol(stream.Location)];
    var c := stream.ReadChar();
    places := places + [LineCol(stream.Location)];
    chars := [b, c];
  }

  /** The reading test after the skip: `d`, the newline, `e`, `f` and the end of the input. */
  method ReadTestEnd(stream: InputStream) returns (chars: seq<Option<char>>, places: seq<(int, int)>)
    requires stream.Valid() && stream.Pending() == "d\nef" && stream.Location == SourceLocation("", 2, 2)
    requires stream.Tabulations == 8
    modifies stream
    ensures chars == [Some('d'), Some('\n'), Some('e'), Some('f'), None]
    ensures places == [(2, 3), (3, 2), (3, 3), (3, 4)]
  {
    var d := stream.ReadChar();
    places := [LineCol(stream.Location)];
    var newline := stream.ReadChar();
    places := places + [LineCol(stream.Location)];
    var e := stream.ReadChar();
    places := places + [LineCol(stream.Location)];
    var f := stream.ReadChar();
    places := places + [LineCol(stream.Location)];
    var end := stream.ReadChar();
    chars := [d, newline, e, f, end];
  }

  /**
   * The reading test on "abc   \nd\nef": the characters read and the line and column after
   * each step, pushing back `A` in place of `a` and skipping the blanks after `c`. The
   * columns are those the code computes; after a newline they are one more than the
   * test's expectations.
   */
  method InputFileScenario() returns (chars: seq<Option<char>>, places: seq<(int, int)>)
    ensures chars == [Some('a'), Some('A'), Some('b'), Some('c'), Some('d'), Some('\n'), Some('e'), Some('f'), None]
    ensures places == [(1, 1), (1, 2), (1, 1), (1, 2), (1, 3), (1, 4), (2, 3), (3, 2), (3, 3), (3, 4)]
  {
    var stream := new InputStream("abc   \nd\nef");
    var pushed, pushedPlaces := ReadTestPushBack(stream);
    var first, firstPlaces := ReadTestStart(stream);
    SkipInTest();
    stream.SkipWhitespacesAndComments();
    assert "   \nd\nef"[4..] == "d\nef" && "   \nd\nef"[..4] == "   \n";
    var rest, restPlaces := ReadTestEnd(stream);
    chars := pushed + first + rest;
    places := [(1, 1)] + pushedPlaces + firstPlaces + restPlaces;
  }

  /**
   * The first read of the reading test: as written it throws `InvalidCastException`,
   * where the test expects `a`, which the corrected `ReadChar` returns.
   */
  method FirstReadThrows() returns (asWritten: Result<Option<char>>, corrected: Option<char>)
    ensures asWritten == Failure("InvalidCastException")
    ensures corrected == Some('a')
  {
    var written := new InputStream("abc   \nd\nef");
    asWritten := written.ReadCharAsWritten();
    var fixed := new InputStream("abc   \nd\nef");
    corrected := fixed.ReadChar();
  }
}
