/** A line editor over a fixed buffer, refining a text with a cursor in it. */
module LineEditor {
  import opened LineHistory

  const NUL := '\0'

  // ---------- the text left and right of the cursor ----------

  datatype Zipper = Zipper(left: string, right: string) {
    function Text(): string { left + right }
  }

  function Typed(z: Zipper, c: char, cap: nat): Zipper
  {
    if |z.Text()| < cap then Zipper(z.left + [c], z.right) else z
  }

  function MovedLeft(z: Zipper): Zipper
  {
    if z.left == [] then z else Zipper(z.left[..|z.left| - 1], [z.left[|z.left| - 1]] + z.right)
  }

  function MovedRight(z: Zipper): Zipper
  {
    if z.right == [] then z else Zipper(z.left + [z.right[0]], z.right[1..])
  }

  function AtHome(z: Zipper): Zipper { Zipper([], z.Text()) }

  function AtEnd(z: Zipper): Zipper { Zipper(z.Text(), []) }

  function Deleted(z: Zipper): Zipper
  {
    if z.right == [] then z else Zipper(z.left, z.right[1..])
  }

  function Backspaced(z: Zipper): Zipper
  {
    if z.left == [] then z else Zipper(z.left[..|z.left| - 1], z.right)
  }

  /** Swaps the characters around the cursor, and steps over the second unless it is the last
      of the line. */
  function Swapped(z: Zipper): Zipper
  {
    if z.left == [] || z.right == [] then z
    else
      var a, b := z.left[|z.left| - 1], z.right[0];
      var before := z.left[..|z.left| - 1] + [b];
      if |z.right| == 1 then Zipper(before, [a]) else Zipper(before + [a], z.right[1..])
  }

  function WithoutTail(s: string, spaces: bool): string
  {
    if s != [] && (s[|s| - 1] == ' ') == spaces then WithoutTail(s[..|s| - 1], spaces) else s
  }

  lemma {:induction false} WithoutTailPrefix(s: string, spaces: bool)
    ensures WithoutTail(s, spaces) <= s
  {
    if s != [] && (s[|s| - 1] == ' ') == spaces {
      WithoutTailPrefix(s[..|s| - 1], spaces);
    }
  }

  /** Without the word in front of the cursor and the blanks behind the word. */
  function WordDeleted(z: Zipper): Zipper
  {
    Zipper(WithoutTail(WithoutTail(z.left, true), false), z.right)
  }

  /** Moving changes no text, and moving back restores the cursor. */
  lemma MovesKeepText(z: Zipper)
    ensures MovedLeft(z).Text() == MovedRight(z).Text() == z.Text()
    ensures z.left != [] ==> MovedRight(MovedLeft(z)) == z
    ensures z.right != [] ==> MovedLeft(MovedRight(z)) == z
  {
    if z.left != [] {
      var l, c := z.left[..|z.left| - 1], z.left[|z.left| - 1];
      assert z.left == l + [c];
      assert l + [c] + z.right == l + ([c] + z.right);
      assert ([c] + z.right)[1..] == z.right;
    }
    if z.right != [] {
      var c, r := z.right[0], z.right[1..];
      assert z.right == [c] + r;
      assert z.left + [c] + r == z.left + ([c] + r);
      assert (z.left + [c])[..|z.left|] == z.left;
    }
  }

  /** Swapping only exchanges the two characters around the cursor. */
  lemma SwapExchanges(z: Zipper)
    requires z.left != [] && z.right != []
    ensures var n := |z.left|;
      Swapped(z).Text() == z.Text()[n - 1 := z.right[0]][n := z.left[n - 1]]
      && |Swapped(z).left| == if |z.right| == 1 then n else n + 1
  {
    var l, a, b, r := z.left[..|z.left| - 1], z.left[|z.left| - 1], z.right[0], z.right[1..];
    assert z.left == l + [a] && z.right == [b] + r;
    assert z.Text() == l + [a, b] + r;
    assert Swapped(z).Text() == l + [b, a] + r;
  }

  /** A typed character is undone by backspace, if there was room for it. */
  lemma BackspaceUndoesTyping(z: Zipper, c: char, cap: nat)
    requires |z.Text()| < cap
    ensures Backspaced(Typed(z, c, cap)) == z && Deleted(MovedLeft(Typed(z, c, cap))) == z
  {
    assert (z.left + [c])[..|z.left|] == z.left;
    assert ([c] + z.right)[1..] == z.right;
  }

  // ---------- a session: the line and the history ----------

  datatype Session = Session(z: Zipper, lines: seq<string>, index: nat)

  function Cut(line: string, n: nat): string
  {
    if |line| <= n then line else line[..n]
  }

  predicate SessionOk(s: Session) { s.index < |s.lines| }

  /** Keeps the edited line in the history and shows the next older or newer one, cut to what
      the buffer takes of it. */
  function Browsed(s: Session, older: bool, cap: nat): (t: Session)
    requires SessionOk(s) && cap >= 1
    ensures SessionOk(t) && |t.lines| == |s.lines|
  {
    var n := |s.lines|;
    if n <= 1 then s
    else
      var lines := s.lines[n - 1 - s.index := s.z.Text()];
      if older && s.index + 1 >= n then Session(s.z, lines, n - 1)
      else if !older && s.index == 0 then Session(s.z, lines, 0)
      else
        var index := if older then s.index + 1 else s.index - 1;
        Session(Zipper(Cut(lines[n - 1 - index], cap - 1), []), lines, index)
  }

  /** Going to an older line and back shows the edited line again, with the cursor at its end,
      if and only if the line is shorter than the buffer takes. */
  lemma PrevNextRestores(s: Session, cap: nat)
    requires SessionOk(s) && cap >= 1 && s.index + 1 < |s.lines|
    ensures var t := Browsed(Browsed(s, true, cap), false, cap);
      && t.index == s.index && t.z.right == [] && t.z.left == Cut(s.z.Text(), cap - 1)
      && (t.z.Text() == s.z.Text() <==> |s.z.Text()| < cap)
  {
  }

  // ---------- keys ----------

  datatype Key =
    | Enter | Interrupt | BackspaceKey | DeleteOrEof | DeleteKey | Swap | Left | Right | Older | Newer | Home | End
    | KillLine | KillToEnd | KillWord | Redraw | Ignored | Type(c: char)

  function PlainKey(c: char): Key
  {
    match c as int
    case 13 => Enter
    case 3 => Interrupt
    case 127 => BackspaceKey
    case 8 => BackspaceKey
    case 4 => DeleteOrEof
    case 20 => Swap
    case 2 => Left
    case 6 => Right
    case 16 => Older
    case 14 => Newer
    case 21 => KillLine
    case 11 => KillToEnd
    case 1 => Home
    case 5 => End
    case 12 => Redraw
    case 23 => KillWord
    case _ => Type(c)
  }

  function BracketKey(c: char): Key
  {
    match c
    case 'A' => Older
    case 'B' => Newer
    case 'C' => Right
    case 'D' => Left
    case 'H' => Home
    case 'F' => End
    case _ => Ignored
  }

  /** The key at the front of the input, and how many characters it takes. */
  function ReadKey(input: string): (r: (Key, nat))
    requires input != []
    ensures 1 <= r.1 <= |input|
  {
    if input[0] as int != 27 then (PlainKey(input[0]), 1)
    else if |input| < 3 then (Ignored, |input|)
    else if input[1] == '[' && '0' <= input[2] <= '9' then
      if |input| < 4 then (Ignored, |input|)
      else (if input[3] == '~' && input[2] == '3' then DeleteKey else Ignored, 4)
    else if input[1] == '[' then (BracketKey(input[2]), 3)
    else if input[1] == 'O' then (if input[2] == 'H' then Home else if input[2] == 'F' then End else Ignored, 3)
    else (Ignored, 3)
  }

  datatype Outcome = Going | Entered | Interrupted | EndOfFile

  /** What a key does to the line. */
  function OnLine(z: Zipper, key: Key, cap: nat): Zipper
  {
    match key
    case BackspaceKey => Backspaced(z)
    case DeleteOrEof => Deleted(z)
    case DeleteKey => Deleted(z)
    case Swap => Swapped(z)
    case Left => MovedLeft(z)
    case Right => MovedRight(z)
    case Home => AtHome(z)
    case End => AtEnd(z)
    case KillLine => Zipper([], [])
    case KillToEnd => Zipper(z.left, [])
    case KillWord => WordDeleted(z)
    case Type(c) => Typed(z, c, cap)
    case _ => z
  }

  /** What a key does to a session. */
  function Pressed(s: Session, key: Key, cap: nat): (r: (Session, Outcome))
    requires SessionOk(s) && cap >= 1
    ensures r.1.Going? ==> SessionOk(r.0)
  {
    var closed := s.(lines := s.lines[..|s.lines| - 1]);
    match key
    case Enter => (closed, Entered)
    case Interrupt => (s, Interrupted)
    case Older => (Browsed(s, true, cap), Going)
    case Newer => (Browsed(s, false, cap), Going)
    case DeleteOrEof => if s.z.Text() == [] then (closed, EndOfFile) else (s.(z := OnLine(s.z, key, cap)), Going)
    case _ => (s.(z := OnLine(s.z, key, cap)), Going)
  }

  /** What an input does to a session, up to its end or to a key that closes the session. */
  function Typing(s: Session, input: string, cap: nat): (Session, Outcome)
    requires SessionOk(s) && cap >= 1
    decreases |input|
  {
    if input == [] then (s, Going)
    else
      var (key, n) := ReadKey(input);
      var (t, o) := Pressed(s, key, cap);
      if o.Going? then Typing(t, input[n..], cap) else (t, o)
  }

  // ---------- the editor ----------

  lemma NewestWithin(lines: seq<string>, line: string, max: nat)
    requires max >= 1
    ensures Added(lines, line, max) != [] && forall l | l in Added(lines, line, max) :: l in lines || l == line
  {
  }

  class Editor {
    const buf: array<char>
    /** How many characters the line may have: one less than the buffer. */
    const buflen: nat
    var pos: nat
    var len: nat
    var historyIndex: nat
    const history: History

    /** The cursor is in the line, the line in the buffer, and behind the line, not in it, is
        a NUL. */
    ghost predicate LineOk()
      reads this`pos, this`len, buf
    {
      buflen >= 1 && buf.Length == buflen + 1 && pos <= len <= buflen && buf[len] == NUL && NUL !in buf[..len]
    }

    ghost predicate Valid()
      reads this, buf, history, history.slots, history.made
    {
      && LineOk() && history.Valid() && historyIndex < history.len
      && forall line | line in history.Contents() :: NUL !in line
    }

    /** The line around the cursor. */
    ghost function Line(): Zipper
      requires pos <= len <= buf.Length
      reads this`pos, this`len, buf
    {
      Zipper(buf[..pos], buf[pos..len])
    }

    ghost function Now(): Session
      requires Valid()
      reads this, buf, history, history.slots, history.made
    {
      Session(Line(), history.Contents(), historyIndex)
    }

    /** Starts with an empty line, which becomes the newest line of the history. */
    constructor (buf: array<char>, history: History)
      requires buf.Length >= 2 && history.Valid() && history.maxLen >= 1
      requires forall line | line in history.Contents() :: NUL !in line
      modifies buf, history, history.slots, history.made
      ensures Valid() && this.buf == buf && this.history == history && buflen == buf.Length - 1
      ensures Now() == Session(Zipper([], []), Added(old(history.Contents()), [], old(history.maxLen)), 0)
      ensures (history.slots == old(history.slots) || fresh(history.slots)) && fresh(history.made - old(history.made))
    {
      hide Held, Texts, Newest;
      this.buf, this.buflen, this.history := buf, buf.Length - 1, history;
      pos, len, historyIndex := 0, 0, 0;
      new;
      buf[0] := NUL;
      NewestWithin(history.Contents(), [], history.maxLen);
      var _ := history.Add([]);
    }

    /** Moves `n` characters inside the buffer. */
    method MoveChars(dst: nat, src: nat, n: nat)
      requires dst + n <= buf.Length && src + n <= buf.Length
      modifies buf
      ensures buf[..dst] == old(buf[..dst]) && buf[dst..dst + n] == old(buf[src..src + n])
      ensures buf[dst + n..] == old(buf[dst + n..])
    {
      forall i | 0 <= i < n {
        buf[dst + i] := buf[src + i];
      }
    }

    /** Writes a character; what is in front of it stays. */
    method Put(i: nat, c: char)
      requires i < buf.Length
      modifies buf
      ensures buf[i] == c && buf[..i] == old(buf[..i]) && buf[i + 1..] == old(buf[i + 1..])
    {
      buf[i] := c;
    }

    /** Ends the line behind `left` and `right`, with the cursor between them. */
    method Finish(ghost left: string, ghost right: string)
      requires pos <= len < buf.Length && buf[..pos] == left && buf[pos..len] == right
      modifies buf
      ensures Line() == Zipper(left, right) && buf[..len] == left + right && buf[len] == NUL
    {
      buf[len] := NUL;
      assert buf[..len] == buf[..pos] + buf[pos..len];
    }

    method Insert(c: char)
      requires LineOk() && c != NUL
      modifies this`pos, this`len, buf
      ensures LineOk() && Line() == Typed(old(Line()), c, buflen)
    {
      Settle(buf[..pos], buf[pos..len]);
      if len < buflen {
        if len == pos {
          InsertAtEnd(c);
        } else {
          InsertInside(c);
        }
      }
    }

    method InsertAtEnd(c: char)
      requires LineOk() && c != NUL && pos == len < buflen
      modifies this`pos, this`len, buf
      ensures LineOk() && Line() == Zipper(old(buf[..pos]) + [c], [])
    {
      ghost var left := buf[..pos];
      Put(pos, c);
      pos := pos + 1;
      len := len + 1;
      assert buf[..pos] == left + [c];
      Finish(left + [c], []);
    }

    method InsertInside(c: char)
      requires LineOk() && c != NUL && pos < len < buflen
      modifies this`pos, this`len, buf
      ensures LineOk() && Line() == Zipper(old(buf[..pos]) + [c], old(buf[pos..len]))
    {
      ghost var left, right := buf[..pos], buf[pos..len];
      assert buf[..len] == left + right;
      ghost var n := |right|;
      MoveChars(pos + 1, pos, len - pos);
      assert buf[..pos] == buf[..pos + 1][..pos] == left;
      assert buf[pos + 1..pos + 1 + n] == right;
      assert buf[pos + 1..][..n] == right;
      Put(pos, c);
      assert buf[pos + 1..][..n] == buf[pos + 1..pos + 1 + n] == right;
      len := len + 1;
      pos := pos + 1;
      assert buf[pos..len] == buf[pos..pos + n] == right;
      assert buf[..pos] == left + [c];
      Finish(left + [c], right);
    }

    method MoveLeft()
      requires LineOk()
      modifies this`pos
      ensures LineOk() && Line() == MovedLeft(old(Line()))
    {
      if pos > 0 {
        pos := pos - 1;
        assert buf[pos..len] == [buf[pos]] + buf[pos + 1..len];
      }
    }

    method MoveRight()
      requires LineOk()
      modifies this`pos
      ensures LineOk() && Line() == MovedRight(old(Line()))
    {
      if pos != len {
        pos := pos + 1;
        assert buf[..pos] == buf[..pos - 1] + [buf[pos - 1]];
      }
    }

    method MoveHome()
      requires LineOk()
      modifies this`pos
      ensures LineOk() && Line() == AtHome(old(Line()))
    {
      assert buf[..len] == buf[..pos] + buf[pos..len];
      if pos != 0 {
        pos := 0;
      }
    }

    method MoveEnd()
      requires LineOk()
      modifies this`pos
      ensures LineOk() && Line() == AtEnd(old(Line()))
    {
      assert buf[..len] == buf[..pos] + buf[pos..len];
      if pos != len {
        pos := len;
      }
    }

    method Delete()
      requires LineOk()
      modifies this`len, buf
      ensures LineOk() && Line() == Deleted(old(Line()))
    {
      if len > 0 && pos < len {
        ghost var z := Line();
        MoveChars(pos, pos + 1, len - pos - 1);
        len := len - 1;
        assert buf[pos..len] == z.right[1..];
        Finish(z.left, z.right[1..]);
        assert forall c | c in z.left + z.right[1..] :: c in z.left + z.right;
        assert z.left + z.right == old(buf[..len]);
      }
    }

    method Backspace()
      requires LineOk()
      modifies this`pos, this`len, buf
      ensures LineOk() && Line() == Backspaced(old(Line()))
    {
      if pos > 0 && len > 0 {
        ghost var left, c, right := buf[..pos - 1], buf[pos - 1], buf[pos..len];
        assert buf[..len] == left + [c] + right;
        assert buf[..pos][..pos - 1] == left;
        MoveChars(pos - 1, pos, len - pos);
        pos := pos - 1;
        len := len - 1;
        assert buf[pos..len] == right;
        Finish(left, right);
      }
    }

    method Transpose()
      requires LineOk()
      modifies this`pos, buf
      ensures LineOk() && Line() == Swapped(old(Line()))
    {
      if pos > 0 && pos < len {
        ghost var z := Line();
        var aux := buf[pos - 1];
        buf[pos - 1] := buf[pos];
        buf[pos] := aux;
        if pos != len - 1 { pos := pos + 1; }
        Settle(Swapped(z).left, Swapped(z).right);
      }
    }

    /** The characters left and right of the cursor make up the line. */
    ghost method Settle(left: string, right: string)
      requires pos <= len < buf.Length && buf[..pos] == left && buf[pos..len] == right
      ensures Line() == Zipper(left, right) && buf[..len] == left + right
    {
      assert buf[..len] == buf[..pos] + buf[pos..len];
    }

    method DeletePrevWord()
      requires LineOk()
      modifies this`pos, this`len, buf
      ensures LineOk() && Line() == WordDeleted(old(Line()))
    {
      ghost var left := buf[..pos];
      var oldPos := pos;
      SkipBack(true);
      SkipBack(false);
      WithoutTailPrefix(left, true);
      WithoutTailPrefix(WithoutTail(left, true), false);
      hide WithoutTail;
      CloseGap(oldPos);
    }

    /** Removes the characters from the cursor up to `end`. */
    method CloseGap(end: nat)
      requires pos <= end <= len <= buflen && buf.Length == buflen + 1 && buf[len] == NUL && NUL !in buf[..len] && buflen >= 1
      modifies this`len, buf
      ensures LineOk() && Line() == Zipper(old(buf[..pos]), old(buf[end..len]))
    {
      ghost var left, right := buf[..pos], buf[end..len];
      assert buf[..len] == buf[..end] + right && buf[..end][..pos] == left;
      assert buf[end..len + 1] == right + [NUL];
      var diff := end - pos;
      MoveChars(pos, end, len - end + 1);
      len := len - diff;
      assert buf[pos..len + 1] == right + [NUL];
      assert buf[pos..len] == buf[pos..len + 1][..len - pos] == right;
      assert buf[len] == buf[pos..len + 1][len - pos];
      Settle(left, right);
    }

    /** Moves the cursor back over blanks, or over everything else. */
    method SkipBack(spaces: bool)
      requires pos <= len <= buf.Length
      modifies this`pos
      ensures pos <= old(pos) && buf[..pos] == WithoutTail(buf[..old(pos)], spaces)
    {
      while pos > 0 && (buf[pos - 1] == ' ') == spaces
        invariant pos <= old(pos) && WithoutTail(buf[..pos], spaces) == WithoutTail(buf[..old(pos)], spaces)
      {
        assert buf[..pos][..pos - 1] == buf[..pos - 1];
        pos := pos - 1;
      }
    }

    method KillLine()
      requires LineOk()
      modifies this`pos, this`len, buf
      ensures LineOk() && Line() == Zipper([], [])
    {
      buf[0] := NUL;
      pos := 0;
      len := 0;
    }

    method KillToEnd()
      requires LineOk()
      modifies this`len, buf
      ensures LineOk() && Line() == Zipper(old(Line()).left, [])
    {
      buf[pos] := NUL;
      len := pos;
    }

    /** Copies a line of the history into the buffer, as far as it fits. */
    method ShowLine(line: string)
      requires buflen >= 1 && buf.Length == buflen + 1 && NUL !in line
      modifies this`pos, this`len, buf
      ensures pos == len <= buflen && buf[len] == NUL && buf[..len] == Cut(line, buflen - 1)
    {
      for i := 0 to buflen
        invariant forall k | 0 <= k < i :: buf[k] == if k < |line| then line[k] else NUL
      {
        buf[i] := if i < |line| then line[i] else NUL;
      }
      buf[buflen - 1] := NUL;
      ghost var shown := buf[..];
      len := 0;
      while buf[len] != NUL
        invariant buf[..] == shown && len <= buflen - 1 && len <= |line| && buf[..len] == line[..len]
        decreases buflen - len
      {
        assert buf[len] == line[len];
        len := len + 1;
      }
      pos := len;
      if len < |line| {
        assert line[len] in line;
      }
    }

    /** Puts the edited line into the history. */
    method Keep()
      requires Valid()
      modifies history`made, history.slots, history.made
      ensures Valid() && Line() == old(Line()) && fresh(history.made - old(history.made))
      ensures history.Contents() == old(history.Contents())[history.len - 1 - historyIndex := Line().Text()]
    {
      hide Held, Texts;
      ghost var lines := history.Contents();
      assert buf[..len] == Line().Text();
      history.Rewrite(history.len - 1 - historyIndex, buf[..len]);
      assert forall line | line in lines[history.len - 1 - historyIndex := Line().Text()] :: line in lines || line == buf[..len];
    }

    /** Shows a line of the history. */
    method ShowEntry()
      requires Valid()
      modifies this`pos, this`len, buf
      ensures Valid() && Line() == Zipper(Cut(history.Contents()[history.len - 1 - historyIndex], buflen - 1), [])
    {
      hide Held, Texts;
      var line := history.TextAt(history.len - 1 - historyIndex);
      assert line in history.Contents();
      ShowLine(line);
      Settle(Cut(line, buflen - 1), []);
    }

    /** Shows the next older or newer line of the history, after keeping the edited one. */
    method HistoryNext(older: bool)
      requires Valid()
      modifies this`pos, this`len, this`historyIndex, buf, history`made, history.slots, history.made
      ensures Valid() && Now() == Browsed(old(Now()), older, buflen) && fresh(history.made - old(history.made))
    {
      hide Held, Texts, LineOk, Cut;
      if history.len > 1 {
        Keep();
        if older && historyIndex + 1 >= history.len {
          historyIndex := history.len - 1;
        } else if older || historyIndex > 0 {
          historyIndex := if older then historyIndex + 1 else historyIndex - 1;
          ShowEntry();
        }
      }
    }

    /** Does what a key asks for on the line. */
    method PressOnLine(key: Key)
      requires LineOk() && key != Type(NUL)
      modifies this`pos, this`len, buf
      ensures LineOk() && Line() == OnLine(old(Line()), key, buflen)
    {
      hide LineOk, Backspaced, Deleted, Swapped, MovedLeft, MovedRight, AtHome, AtEnd, WordDeleted, Typed;
      match key
      case BackspaceKey => Backspace();
      case DeleteOrEof => Delete();
      case DeleteKey => Delete();
      case Swap => Transpose();
      case Left => MoveLeft();
      case Right => MoveRight();
      case Home => MoveHome();
      case End => MoveEnd();
      case KillLine => KillLine();
      case KillToEnd => KillToEnd();
      case KillWord => DeletePrevWord();
      case Type(c) => Insert(c);
      case _ =>
    }

    /** The same, next to the history. */
    method PressHere(key: Key)
      requires Valid() && key != Type(NUL)
      modifies this`pos, this`len, buf
      ensures Valid() && Now() == old(Now()).(z := OnLine(old(Line()), key, buflen))
    {
      hide Held, Texts, LineOk, OnLine;
      PressOnLine(key);
    }

    /** Takes the edited line out of the history. */
    method Close()
      requires Valid()
      modifies history`len, history.made
      ensures LineOk() && Line() == old(Line()) && history.Valid() && history.made == old(history.made)
      ensures history.Contents() == old(history.Contents())[..|old(history.Contents())| - 1]
    {
      hide Held, Texts;
      history.DropNewest();
    }

    /** Does what a key asks for. Ends the session on enter, on an interrupt, and on an end of
        file on an empty line; the newest line of the history, which stands for the edited
        one, goes unless the session was interrupted. */
    method Press(key: Key) returns (o: Outcome)
      requires Valid() && key != Type(NUL)
      modifies this`pos, this`len, this`historyIndex, buf, history`len, history`made, history.slots, history.made
      ensures o == Pressed(old(Now()), key, buflen).1 && fresh(history.made - old(history.made))
      ensures LineOk() && history.Valid() && Line() == Pressed(old(Now()), key, buflen).0.z
      ensures history.Contents() == Pressed(old(Now()), key, buflen).0.lines
      ensures o.Going? ==> Valid() && historyIndex == Pressed(old(Now()), key, buflen).0.index
    {
      hide Held, Texts, LineOk, Browsed, OnLine;
      o := Going;
      if key.Enter? {
        Close();
        o := Entered;
      } else if key.Interrupt? {
        o := Interrupted;
      } else if key.Older? || key.Newer? {
        HistoryNext(key.Older?);
      } else {
        LineSize();
        if key.DeleteOrEof? && len == 0 {
          Close();
          o := EndOfFile;
        } else {
          PressHere(key);
        }
      }
    }

    ghost method LineSize()
      requires LineOk()
      ensures |Line().Text()| == len
    {
    }
  }

  /** Edits a line: the keys of the input act on the line and the history as they act on a
      session, until one closes it or the input ends. */
  method Edit(buf: array<char>, history: History, input: string) returns (l: Editor, o: Outcome)
    requires buf.Length >= 2 && history.Valid() && history.maxLen >= 1 && NUL !in input
    requires forall line | line in history.Contents() :: NUL !in line
    modifies buf, history, history.slots, history.made
    ensures var s := Session(Zipper([], []), Added(old(history.Contents()), [], old(history.maxLen)), 0);
      var (t, outcome) := Typing(s, input, buf.Length - 1);
      && o == outcome && l.LineOk() && l.Line() == t.z && history.Valid() && history.Contents() == t.lines
  {
    hide Held, Texts, Pressed, Editor.LineOk, Browsed, ReadKey;
    l := new Editor(buf, history);
    ghost var s := l.Now();
    o := Going;
    var i := 0;
    assert input[0..] == input;
    while i < |input|
      invariant i <= |input| && o.Going? && l.Valid() && fresh(l) && l.buf == buf && l.history == history && l.buflen == buf.Length - 1
      invariant fresh(history.made - old(history.made)) && (history.slots == old(history.slots) || fresh(history.slots))
      invariant Typing(s, input, l.buflen) == Typing(l.Now(), input[i..], l.buflen)
    {
      var (key, n) := ReadKey(input[i..]);
      KeyIsNoNul(input[i..]);
      o := l.Press(key);
      if !o.Going? {
        return;
      }
      assert input[i..][n..] == input[i + n..];
      i := i + n;
    }
  }

  lemma KeyIsNoNul(input: string)
    requires input != [] && NUL !in input
    ensures ReadKey(input).0 != Type(NUL)
  {
    assert input[0] in input;
  }

  // ---------- what the keys do to a text ----------

  function Ctrl(letter: char): char
    requires 'A' <= letter <= 'Z'
  {
    (letter as int - 64) as char
  }

  const ESC := 27 as char
  const RUBOUT := 127 as char

  predicate Printable(c: char) { ' ' <= c && c != RUBOUT }

  /** A key of one character, and then the rest. */
  lemma OneKey(s: Session, key: char, rest: string, cap: nat)
    requires SessionOk(s) && cap >= 1 && key != ESC
    ensures var (t, o) := Pressed(s, PlainKey(key), cap);
      Typing(s, [key] + rest, cap) == if o.Going? then Typing(t, rest, cap) else (t, o)
  {
    assert ([key] + rest)[1..] == rest;
  }

  /** The text that a session has after some input. */
  function TextAfter(s: Session, input: string, cap: nat): string
    requires SessionOk(s) && cap >= 1
  {
    Typing(s, input, cap).0.z.Text()
  }

  lemma TypedAfter(s: Session, key: char, c: char, cap: nat)
    requires SessionOk(s) && cap >= 1 && key != ESC && Printable(c)
    requires Pressed(s, PlainKey(key), cap).1.Going? && |Pressed(s, PlainKey(key), cap).0.z.Text()| < cap
    ensures var z := Pressed(s, PlainKey(key), cap).0.z; TextAfter(s, [key, c], cap) == z.left + [c] + z.right
  {
    var (t, o) := Pressed(s, PlainKey(key), cap);
    hide Pressed;
    assert [key, c] == [key] + [c] && [c] == [c] + [];
    OneKey(s, key, [c], cap);
    PrintableKey(t, c, cap);
    OneKey(t, c, [], cap);
  }

  lemma PrintableKey(t: Session, c: char, cap: nat)
    requires SessionOk(t) && cap >= 1 && Printable(c) && |t.z.Text()| < cap
    ensures c != ESC && Pressed(t, PlainKey(c), cap) == (t.(z := Zipper(t.z.left + [c], t.z.right)), Going)
  {
  }

  /** Where a character goes that is typed behind a key, and what of the text is left: with
      `l` to the left of the cursor and `r` to the right. */
  lemma KeysOnText(s: Session, c: char, cap: nat)
    requires SessionOk(s) && Printable(c) && |s.z.Text()| < cap
    ensures var l, r := s.z.left, s.z.right;
      && TextAfter(s, [Ctrl('A'), c], cap) == [c] + l + r
      && TextAfter(s, [Ctrl('E'), c], cap) == l + r + [c]
      && TextAfter(s, [Ctrl('K'), c], cap) == l + [c]
      && TextAfter(s, [Ctrl('U'), c], cap) == [c]
      && TextAfter(s, [Ctrl('L'), c], cap) == l + [c] + r
  {
    hide Typing, TextAfter, ReadKey, Browsed, Typed, Swapped, WordDeleted, Deleted, Backspaced, MovedLeft, MovedRight;
    TypedAfter(s, Ctrl('A'), c, cap);
    TypedAfter(s, Ctrl('E'), c, cap);
    TypedAfter(s, Ctrl('K'), c, cap);
    TypedAfter(s, Ctrl('U'), c, cap);
    TypedAfter(s, Ctrl('L'), c, cap);
  }

  lemma KeysAtCursor(s: Session, c: char, cap: nat)
    requires SessionOk(s) && Printable(c) && |s.z.Text()| < cap
    ensures var l, r := s.z.left, s.z.right;
      && (l != [] ==>
            var front, last := l[..|l| - 1], l[|l| - 1];
            && TextAfter(s, [Ctrl('B'), c], cap) == front + [c] + ([last] + r)
            && TextAfter(s, [Ctrl('H'), c], cap) == TextAfter(s, [RUBOUT, c], cap) == front + [c] + r)
      && (r != [] ==>
            && TextAfter(s, [Ctrl('F'), c], cap) == l + [r[0]] + [c] + r[1..]
            && TextAfter(s, [Ctrl('D'), c], cap) == l + [c] + r[1..])
  {
    if s.z.left != [] {
      TypedAfter(s, Ctrl('B'), c, cap);
      TypedAfter(s, Ctrl('H'), c, cap);
      TypedAfter(s, RUBOUT, c, cap);
    }
    if s.z.right != [] {
      TypedAfter(s, Ctrl('F'), c, cap);
      TypedAfter(s, Ctrl('D'), c, cap);
    }
  }

  lemma KeysAroundCursor(s: Session, front: string, a: char, b: char, back: string, c: char, cap: nat)
    requires SessionOk(s) && Printable(c) && |s.z.Text()| < cap && s.z == Zipper(front + [a], [b] + back)
    ensures TextAfter(s, [Ctrl('T'), c], cap) == if back == [] then front + [b] + [c] + [a] else front + [b] + [a] + [c] + back
  {
    assert (front + [a])[..|front|] == front && ([b] + back)[1..] == back;
    TypedAfter(s, Ctrl('T'), c, cap);
  }

  /** Control-W removes the blanks in front of the cursor, and the word in front of them. */
  lemma WordKey(s: Session, front: string, word: string, blanks: string, c: char, cap: nat)
    requires SessionOk(s) && Printable(c) && |s.z.Text()| < cap && s.z.left == front + word + blanks
    requires (forall x | x in blanks :: x == ' ') && word != [] && ' ' !in word && (front == [] || front[|front| - 1] == ' ')
    ensures TextAfter(s, [Ctrl('W'), c], cap) == front + [c] + s.z.right
  {
    assert (front + word)[|front + word| - 1] == word[|word| - 1];
    TailIs(front + word, blanks, true);
    TailIs(front, word, false);
    TypedAfter(s, Ctrl('W'), c, cap);
  }

  lemma {:induction false} TailIs(front: string, tail: string, spaces: bool)
    requires (forall x | x in tail :: (x == ' ') == spaces) && (front == [] || (front[|front| - 1] == ' ') != spaces)
    ensures WithoutTail(front + tail, spaces) == front
    decreases |tail|
  {
    if tail == [] {
      assert front + tail == front;
    } else {
      assert (front + tail)[|front + tail| - 1] == tail[|tail| - 1] && tail[|tail| - 1] in tail;
      assert (front + tail)[..|front + tail| - 1] == front + tail[..|tail| - 1];
      var shorter := tail[..|tail| - 1];
      forall x | x in shorter ensures (x == ' ') == spaces {
        assert x in tail;
      }
      TailIs(front, shorter, spaces);
    }
  }

  /** The keys that end a session, and what they leave of the history. */
  lemma KeysThatEnd(s: Session, rest: string, cap: nat)
    requires SessionOk(s) && cap >= 1
    ensures var closed := s.(lines := s.lines[..|s.lines| - 1]);
      && Typing(s, [Ctrl('M')] + rest, cap) == (closed, Entered)
      && Typing(s, [Ctrl('C')] + rest, cap) == (s, Interrupted)
      && (s.z.Text() == [] ==> Typing(s, [Ctrl('D')] + rest, cap) == (closed, EndOfFile))
  {
    OneKey(s, Ctrl('M'), rest, cap);
    OneKey(s, Ctrl('C'), rest, cap);
    OneKey(s, Ctrl('D'), rest, cap);
  }

  /** Going back in the history shows the line before the edited one, and going forward again
      shows the edited one, cut to what the buffer takes. */
  lemma KeysInHistory(s: Session, cap: nat)
    requires SessionOk(s) && cap >= 1 && s.index == 0 && |s.lines| >= 2
    ensures TextAfter(s, [Ctrl('P')], cap) == Cut(s.lines[|s.lines| - 2], cap - 1)
    ensures TextAfter(s, [Ctrl('P'), Ctrl('N')], cap) == Cut(s.z.Text(), cap - 1)
  {
    var t := Browsed(s, true, cap);
    assert [Ctrl('P')] == [Ctrl('P')] + [] && [Ctrl('P'), Ctrl('N')] == [Ctrl('P')] + [Ctrl('N')] && [Ctrl('N')] == [Ctrl('N')] + [];
    OneKey(s, Ctrl('P'), [], cap);
    OneKey(s, Ctrl('P'), [Ctrl('N')], cap);
    OneKey(t, Ctrl('N'), [], cap);
  }

  /** The keys of the keypad do what control keys do. */
  lemma KeypadKeys(s: Session, rest: string, cap: nat)
    requires SessionOk(s) && cap >= 1
    ensures Typing(s, [ESC, '[', 'A'] + rest, cap) == Typing(s, [Ctrl('P')] + rest, cap)
    ensures Typing(s, [ESC, '[', 'B'] + rest, cap) == Typing(s, [Ctrl('N')] + rest, cap)
    ensures Typing(s, [ESC, '[', 'C'] + rest, cap) == Typing(s, [Ctrl('F')] + rest, cap)
    ensures Typing(s, [ESC, '[', 'D'] + rest, cap) == Typing(s, [Ctrl('B')] + rest, cap)
    ensures Typing(s, [ESC, '[', 'H'] + rest, cap) == Typing(s, [ESC, 'O', 'H'] + rest, cap) == Typing(s, [Ctrl('A')] + rest, cap)
    ensures Typing(s, [ESC, '[', 'F'] + rest, cap) == Typing(s, [ESC, 'O', 'F'] + rest, cap) == Typing(s, [Ctrl('E')] + rest, cap)
    ensures s.z.Text() != [] ==> Typing(s, [ESC, '[', '3', '~'] + rest, cap) == Typing(s, [Ctrl('D')] + rest, cap)
  {
    hide Pressed;
    KeypadKey(s, '[', 'A', 'P', rest, cap);
    KeypadKey(s, '[', 'B', 'N', rest, cap);
    KeypadKey(s, '[', 'C', 'F', rest, cap);
    KeypadKey(s, '[', 'D', 'B', rest, cap);
    KeypadKey(s, '[', 'H', 'A', rest, cap);
    KeypadKey(s, 'O', 'H', 'A', rest, cap);
    KeypadKey(s, '[', 'F', 'E', rest, cap);
    KeypadKey(s, 'O', 'F', 'E', rest, cap);
    DeleteKeys(s, rest, cap);
  }

  lemma KeypadKey(s: Session, bracket: char, key: char, letter: char, rest: string, cap: nat)
    requires SessionOk(s) && cap >= 1 && 'A' <= letter <= 'Z' && !('0' <= key <= '9')
    requires ReadKey([ESC, bracket, key]).0 == PlainKey(Ctrl(letter)) && (bracket == '[' || bracket == 'O') && letter in "PNFBAE"
    ensures Typing(s, [ESC, bracket, key] + rest, cap) == Typing(s, [Ctrl(letter)] + rest, cap)
  {
    hide Pressed;
    var input := [ESC, bracket, key] + rest;
    assert input[0] == ESC && input[1] == bracket && input[2] == key && input[3..] == rest;
    assert ReadKey(input) == (PlainKey(Ctrl(letter)), 3);
    assert Ctrl(letter) != ESC;
    OneKey(s, Ctrl(letter), rest, cap);
  }

  lemma DeleteKeys(s: Session, rest: string, cap: nat)
    requires SessionOk(s) && cap >= 1
    ensures s.z.Text() != [] ==> Typing(s, [ESC, '[', '3', '~'] + rest, cap) == Typing(s, [Ctrl('D')] + rest, cap)
  {
    var input := [ESC, '[', '3', '~'] + rest;
    assert input[0] == ESC && input[1] == '[' && input[2] == '3' && input[3] == '~' && input[4..] == rest;
    OneKey(s, Ctrl('D'), rest, cap);
    assert Pressed(s, DeleteKey, cap).0 == s.(z := Deleted(s.z));
  }

  /** Sequences that stand for no key do nothing: with a digit they are four characters long, and
      otherwise three. */
  lemma UnknownKeys(s: Session, x: char, y: char, rest: string, cap: nat)
    requires SessionOk(s) && cap >= 1
    ensures '0' <= x <= '9' && !(x == '3' && y == '~') ==> Typing(s, [ESC, '[', x, y] + rest, cap) == Typing(s, rest, cap)
    ensures !('0' <= x <= '9') && x !in "ABCDHF" ==> Typing(s, [ESC, '[', x] + rest, cap) == Typing(s, rest, cap)
    ensures x !in "HF" ==> Typing(s, [ESC, 'O', x] + rest, cap) == Typing(s, rest, cap)
    ensures y != '[' && y != 'O' ==> Typing(s, [ESC, y, x] + rest, cap) == Typing(s, rest, cap)
  {
    assert Pressed(s, Ignored, cap) == (s, Going);
    assert ([ESC, '[', x, y] + rest)[4..] == rest && ([ESC, '[', x] + rest)[3..] == rest;
    assert ([ESC, 'O', x] + rest)[3..] == rest && ([ESC, y, x] + rest)[3..] == rest;
  }
}
