/** copy_escaped_tag_value(): escaping a tag value into a buffer of fixed size. */
module Escape {
  import opened Text

  const NUL := '\0'

  predicate Special(ch: char) {
    ch == ' ' || ch == ',' || ch == '='
  }

  /** The index of the first newline, or the length of the text. */
  function Line(src: string): (n: nat)
    ensures n <= |src|
    ensures forall i | 0 <= i < n :: src[i] != '\n'
    ensures n < |src| ==> src[n] == '\n'
  {
    if src == "" || src[0] == '\n' then 0 else 1 + Line(src[1..])
  }

  /**
   * Position i counts: it is no backslash, and no special that repeats the character just before it.
   * `stale` is what stands before position 0: the source reads an uninitialised variable there.
   */
  predicate Counts(src: string, stale: char, i: nat)
    requires i < |src|
  {
    && src[i] != '\\'
    && !(Special(src[i]) && src[i] == if i == 0 then stale else src[i - 1])
  }

  /** The characters that count among the first n. */
  function Select(src: string, stale: char, n: nat): string
    requires n <= |src|
  {
    if n == 0 then ""
    else if Counts(src, stale, n - 1) then Select(src, stale, n - 1) + [src[n - 1]]
    else Select(src, stale, n - 1)
  }

  /** What the escaped value stands for. */
  function Meaning(src: string, stale: char): string {
    Select(src, stale, Line(src))
  }

  function EscapeChar(ch: char): string {
    if Special(ch) then ['\\', ch] else [ch]
  }

  function EscapeAll(s: string): string {
    if s == "" then "" else EscapeChar(s[0]) + EscapeAll(s[1..])
  }

  function Unescape(s: string): string {
    if s == "" then ""
    else if s[0] == '\\' && |s| > 1 then [s[1]] + Unescape(s[2..])
    else [s[0]] + Unescape(s[1..])
  }

  /** How many characters of s go into `room` once escaped; n of them are known to. */
  function Fit(s: string, room: int, n: nat): (k: nat)
    requires n <= |s|
    ensures n <= k <= |s|
    decreases |s| - n
  {
    if n < |s| && |EscapeAll(s[..n + 1])| <= room then Fit(s, room, n + 1) else n
  }

  /** The text that ends up in a buffer of `capacity` characters. */
  function Written(src: string, stale: char, capacity: nat): string {
    var s := Meaning(src, stale);
    EscapeAll(s[..Fit(s, capacity - 1, 0)])
  }

  lemma {:induction false} EscapeAppend(a: string, b: string)
    ensures EscapeAll(a + b) == EscapeAll(a) + EscapeAll(b)
  {
    hide EscapeChar;
    if a == "" {
      assert a + b == b;
    } else {
      EscapeAppend(a[1..], b);
      TailOfBoth(a, b);
      Associative(EscapeChar(a[0]), EscapeAll(a[1..]), EscapeAll(b));
    }
  }

  lemma EscapeOneMore(s: string, ch: char)
    ensures EscapeAll(s + [ch]) == EscapeAll(s) + EscapeChar(ch)
  {
    EscapeAppend(s, [ch]);
    assert [ch][1..] == "";
  }

  /** A prefix that fits with a next character that does not is where Fit stops. */
  lemma {:induction false} FitStops(s: string, room: int, n: nat, k: nat)
    requires n <= k <= |s|
    requires k > n ==> |EscapeAll(s[..k])| <= room
    requires k < |s| ==> |EscapeAll(s[..k + 1])| > room
    ensures Fit(s, room, n) == k
    decreases k - n
  {
    if n < k {
      assert s[..k] == s[..n + 1] + s[n + 1..k];
      EscapeAppend(s[..n + 1], s[n + 1..k]);
      FitStops(s, room, n + 1, k);
    }
  }

  lemma {:induction false} SelectGrows(src: string, stale: char, i: nat, n: nat)
    requires i <= n <= |src|
    ensures Select(src, stale, i) <= Select(src, stale, n)
  {
    if i < n {
      SelectGrows(src, stale, i, n - 1);
    }
  }

  /** The whole selection before position i fits and the next character that counts does not. */
  lemma RunsOut(src: string, stale: char, capacity: nat, i: nat)
    requires i < Line(src) && Counts(src, stale, i)
    requires var s := Select(src, stale, i);
             (s != "" ==> |EscapeAll(s)| <= capacity - 1) && |EscapeAll(s)| + |EscapeChar(src[i])| > capacity - 1
    ensures Written(src, stale, capacity) == EscapeAll(Select(src, stale, i))
  {
    hide EscapeAll, Fit;
    var s, all := Select(src, stale, i), Meaning(src, stale);
    SelectGrows(src, stale, i, Line(src));
    SelectGrows(src, stale, i + 1, Line(src));
    assert all[..|s|] == s && all[..|s| + 1] == s + [src[i]];
    EscapeOneMore(s, src[i]);
    FitStops(all, capacity - 1, 0, |s|);
  }

  lemma RunsThrough(src: string, stale: char, capacity: nat)
    requires var s := Meaning(src, stale); s != "" ==> |EscapeAll(s)| <= capacity - 1
    ensures Written(src, stale, capacity) == EscapeAll(Meaning(src, stale))
  {
    var s := Meaning(src, stale);
    assert s[..|s|] == s;
    FitStops(s, capacity - 1, 0, |s|);
  }

  lemma {:induction false} LineIs(src: string, n: nat)
    requires n <= |src| && (forall i | 0 <= i < n :: src[i] != '\n') && (n < |src| ==> src[n] == '\n')
    ensures Line(src) == n
  {
  }

  lemma EscapeNothing()
    ensures EscapeAll("") == ""
  {
  }

  /** The loop over src_index, dest_index and last_ch. `stale` is the value last_ch happens to start with. */
  method CopyEscapedTagValue(src: string, dest: array<char>, stale: char)
    requires NUL !in src
    modifies dest
    ensures var text := Written(src, stale, dest.Length);
            |text| <= dest.Length && dest[..|text|] == text &&
            forall i | |text| <= i < dest.Length :: dest[i] == NUL
  {
    hide EscapeAll, Written, Fit;
    EscapeNothing();
    var lastCh := stale;
    var destIndex := 0;
    forall i | 0 <= i < dest.Length {
      dest[i] := NUL;
    }
    var i := 0;
    while i < |src|
      invariant 0 <= i <= |src| && 0 <= destIndex <= dest.Length
      invariant forall k | 0 <= k < i :: src[k] != '\n'
      invariant lastCh == if i == 0 then stale else src[i - 1]
      invariant dest[..destIndex] == EscapeAll(Select(src, stale, i))
      invariant if destIndex > 0 then destIndex <= dest.Length - 1 else Select(src, stale, i) == ""
      invariant forall k | destIndex <= k < dest.Length :: dest[k] == NUL
    {
      var ch := src[i];
      if (ch == ' ' && lastCh == ' ') || (ch == ',' && lastCh == ',') || (ch == '=' && lastCh == '=') {
        i := i + 1;
        continue;
      }
      if ch == '\n' {
        LineIs(src, i);
        RunsThrough(src, stale, dest.Length);
        return;
      }
      if ch == '\\' {
        lastCh := ch;
        i := i + 1;
        continue;
      }
      EscapeOneMore(Select(src, stale, i), ch);
      if destIndex + |EscapeChar(ch)| > dest.Length - 1 {
        RunsOut(src, stale, dest.Length, i);
      }
      if Special(ch) {
        if destIndex < dest.Length - 2 {
          dest[destIndex] := '\\';
          destIndex := destIndex + 1;
        } else {
          return;
        }
      }
      if destIndex < dest.Length - 1 {
        dest[destIndex] := ch;
        destIndex := destIndex + 1;
      } else {
        return;
      }
      lastCh := ch;
      i := i + 1;
    }
    LineIs(src, |src|);
    RunsThrough(src, stale, dest.Length);
  }

  /** Meanings hold no backslash, no newline and nothing the source text did not hold. */
  lemma {:induction false} SelectPlain(src: string, stale: char, n: nat)
    requires n <= Line(src)
    ensures forall ch | ch in Select(src, stale, n) :: ch in src && ch != '\\' && ch != '\n'
  {
    if n > 0 {
      SelectPlain(src, stale, n - 1);
    }
  }

  predicate Plain(s: string) {
    forall i | 0 <= i < |s| :: s[i] != '\\' && s[i] != '\n'
  }

  /** Unescaping takes one escaped character off the front at a time. */
  lemma UnescapeOne(ch: char, rest: string)
    requires ch != '\\'
    ensures Unescape(EscapeChar(ch) + rest) == [ch] + Unescape(rest)
  {
    var s := EscapeChar(ch) + rest;
    if Special(ch) {
      assert s[0] == '\\' && s[1] == ch && s[2..] == rest;
    } else {
      assert s[0] == ch && s[1..] == rest;
    }
  }

  lemma {:induction false} UnescapeEscaped(s: string)
    requires Plain(s)
    ensures Unescape(EscapeAll(s)) == s
  {
    hide EscapeChar, Unescape;
    if s == "" {
      UnescapeNothing();
    } else {
      UnescapeEscaped(s[1..]);
      UnescapeOne(s[0], EscapeAll(s[1..]));
    }
  }

  lemma UnescapeNothing()
    ensures Unescape("") == ""
  {
  }

  lemma {:induction false} LongerEscapes(s: string, k: nat)
    requires k <= |s|
    ensures |EscapeAll(s[..k])| <= |EscapeAll(s)|
  {
    assert s == s[..k] + s[k..];
    EscapeAppend(s[..k], s[k..]);
  }

  lemma PlainMeaning(src: string, stale: char)
    ensures Plain(Meaning(src, stale))
  {
    var all := Meaning(src, stale);
    SelectPlain(src, stale, Line(src));
    assert forall i | 0 <= i < |all| :: all[i] in all;
  }

  lemma WrittenIsPrefix(src: string, stale: char, capacity: nat) returns (s: string)
    ensures s <= Meaning(src, stale) && Plain(s) && Written(src, stale, capacity) == EscapeAll(s)
    ensures s != "" ==> |EscapeAll(s)| <= capacity - 1
    ensures s == Meaning(src, stale) <==> Meaning(src, stale) == "" || |EscapeAll(Meaning(src, stale))| <= capacity - 1
  {
    hide EscapeAll, Fit, Meaning;
    var all := Meaning(src, stale);
    var k := Fit(all, capacity - 1, 0);
    FitFits(all, capacity - 1, 0);
    s := all[..k];
    PlainMeaning(src, stale);
    assert all[..|all|] == all;
    if k < |all| {
      LongerEscapes(all, k + 1);
    }
  }

  lemma {:induction false} FitFits(s: string, room: int, n: nat)
    requires n <= |s|
    ensures var k := Fit(s, room, n);
            (k > n ==> |EscapeAll(s[..k])| <= room) && (k < |s| ==> |EscapeAll(s[..k + 1])| > room)
    decreases |s| - n
  {
    if n < |s| && |EscapeAll(s[..n + 1])| <= room {
      FitFits(s, room, n + 1);
    }
  }

  /**
   * Main result: undoing the escapes gives a prefix of what the value means, and the whole of it exactly
   * when its escaped form leaves room for the terminator.
   */
  lemma WrittenMeans(src: string, stale: char, capacity: nat)
    ensures Unescape(Written(src, stale, capacity)) <= Meaning(src, stale)
    ensures Unescape(Written(src, stale, capacity)) == Meaning(src, stale) <==>
      Meaning(src, stale) == "" || |EscapeAll(Meaning(src, stale))| < capacity
  {
    var s := WrittenIsPrefix(src, stale, capacity);
    UnescapeEscaped(s);
  }

  /** Every special stands behind a backslash and every backslash stands before a special. */
  predicate WellEscaped(t: string) {
    && (forall i | 0 <= i < |t| :: Special(t[i]) ==> i > 0 && t[i - 1] == '\\')
    && (forall i | 0 <= i < |t| :: t[i] == '\\' ==> i + 1 < |t| && Special(t[i + 1]))
  }

  lemma {:induction false} EscapedWell(s: string)
    requires Plain(s)
    ensures WellEscaped(EscapeAll(s))
    ensures forall ch | ch in EscapeAll(s) :: ch == '\\' || ch in s
    ensures forall i | 0 <= i < |EscapeAll(s)| :: EscapeAll(s)[i] != '\n'
  {
    if s != "" {
      var head, rest := EscapeChar(s[0]), EscapeAll(s[1..]);
      EscapedWell(s[1..]);
      var t := head + rest;
      forall i | 0 <= i < |t|
        ensures t[i] != '\n'
        ensures Special(t[i]) ==> i > 0 && t[i - 1] == '\\'
        ensures t[i] == '\\' ==> i + 1 < |t| && Special(t[i + 1])
      {
        if i >= |head| {
          assert t[i] == rest[i - |head|];
        }
      }
    }
  }

  /** The buffer always holds a terminated, well-escaped text: truncation never cuts an escape in half. */
  lemma WrittenWell(src: string, stale: char, capacity: nat)
    requires NUL !in src
    ensures capacity > 0 ==> |Written(src, stale, capacity)| < capacity
    ensures NUL !in Written(src, stale, capacity)
    ensures WellEscaped(Written(src, stale, capacity))
  {
    var s := WrittenIsPrefix(src, stale, capacity);
    EscapedWell(s);
    SelectPlain(src, stale, Line(src));
    assert forall ch | ch in s :: ch in Meaning(src, stale);
  }

  /** Spaces, commas and equals signs stand behind a backslash, and a backslash before one of them. */
  lemma SeparatorsEscaped(src: string, stale: char, capacity: nat)
    requires NUL !in src
    ensures var t := Written(src, stale, capacity);
            && (forall i | 0 <= i < |t| && (t[i] == ' ' || t[i] == ',' || t[i] == '=') :: i > 0 && t[i - 1] == '\\')
            && (forall i | 0 <= i < |t| && t[i] == '\\' ::
                  i + 1 < |t| && (t[i + 1] == ' ' || t[i + 1] == ',' || t[i + 1] == '='))
  {
    hide Written;
    WrittenWell(src, stale, capacity);
  }

  /** The text without backslashes, and without a space, comma or equals sign that repeats the character before it. */
  function Collapsed(s: string, before: char): string {
    if s == "" then ""
    else if s[0] == '\\' || (s[0] == before && (s[0] == ' ' || s[0] == ',' || s[0] == '=')) then Collapsed(s[1..], s[0])
    else [s[0]] + Collapsed(s[1..], s[0])
  }

  /** The room a text takes with a backslash before every space, comma and equals sign. */
  function Room(s: string): nat {
    if s == "" then 0 else (if s[0] == ' ' || s[0] == ',' || s[0] == '=' then 2 else 1) + Room(s[1..])
  }

  lemma {:induction false} RoomIs(s: string)
    ensures |EscapeAll(s)| == Room(s)
  {
    if s != "" {
      RoomIs(s[1..]);
    }
  }

  lemma {:induction false} CollapsedOneMore(s: string, before: char, ch: char)
    ensures var last := if s == "" then before else s[|s| - 1];
            Collapsed(s + [ch], before)
            == if ch == '\\' || (Special(ch) && ch == last) then Collapsed(s, before) else Collapsed(s, before) + [ch]
  {
    if s == "" {
      assert [ch][1..] == "";
    } else {
      TailOfBoth(s, [ch]);
      CollapsedOneMore(s[1..], s[0], ch);
      Associative([s[0]], Collapsed(s[1..], s[0]), [ch]);
    }
  }

  lemma {:induction false} SelectCollapses(src: string, stale: char, n: nat)
    requires n <= |src|
    ensures Select(src, stale, n) == Collapsed(src[..n], stale)
  {
    hide Special;
    if n > 0 {
      SelectCollapses(src, stale, n - 1);
      assert src[..n] == src[..n - 1] + [src[n - 1]];
      CollapsedOneMore(src[..n - 1], stale, src[n - 1]);
    }
  }

  /**
   * Main result, spelled out. Undoing the escapes gives the beginning of the source line without backslashes and
   * without repeated separators: all of it exactly when it fits with its terminator, and otherwise as much of it
   * as fits.
   */
  lemma WrittenLine(src: string, stale: char, capacity: nat, n: nat)
    requires n <= |src| && (forall i | 0 <= i < n :: src[i] != '\n') && (n < |src| ==> src[n] == '\n')
    ensures var all := Collapsed(src[..n], stale);
            var text := Unescape(Written(src, stale, capacity));
            && text <= all && |Written(src, stale, capacity)| == Room(text)
            && (text == all <==> all == "" || Room(all) < capacity)
            && (text != all ==> Room(all[..|text| + 1]) >= capacity)
  {
    hide EscapeAll, Fit, Unescape, Collapsed, Room;
    LineIs(src, n);
    SelectCollapses(src, stale, n);
    var all := Meaning(src, stale);
    var k := Fit(all, capacity - 1, 0);
    WrittenMeans(src, stale, capacity);
    FitFits(all, capacity - 1, 0);
    PlainMeaning(src, stale);
    UnescapeEscaped(all[..k]);
    RoomIs(all);
    RoomIs(all[..k]);
    if k < |all| {
      RoomIs(all[..k + 1]);
    } else {
      assert all[..k] == all;
    }
  }

  lemma {:induction false} SelectOfPrefix(a: string, b: string, stale: char, n: nat)
    requires n <= |a|
    ensures Select(a + b, stale, n) == Select(a, stale, n)
  {
    if n > 0 {
      SelectOfPrefix(a, b, stale, n - 1);
    }
  }

  /** One escaped character behind any text adds exactly that character to the selection. */
  lemma SelectOneMore(a: string, ch: char, stale: char)
    requires ch != '\\'
    ensures var t := a + EscapeChar(ch); Select(t, stale, |t|) == Select(a, stale, |a|) + [ch]
  {
    var t := a + EscapeChar(ch);
    SelectOfPrefix(a, EscapeChar(ch), stale, |a|);
    if Special(ch) {
      assert t[|a|] == '\\' && t[|a| + 1] == ch;
      assert !Counts(t, stale, |a|) && Counts(t, stale, |a| + 1);
    } else {
      assert t[|a|] == ch;
      assert Counts(t, stale, |a|);
    }
  }

  /** The backslashes that the escaper writes keep specials apart, so it selects them all again. */
  lemma {:induction false} SelectEscaped(s: string, stale: char)
    requires Plain(s)
    ensures Select(EscapeAll(s), stale, |EscapeAll(s)|) == s
  {
    if s != "" {
      var init, ch := s[..|s| - 1], s[|s| - 1];
      SelectEscaped(init, stale);
      EscapeOneMore(init, ch);
      SelectOneMore(EscapeAll(init), ch, stale);
      assert s == init + [ch];
    }
  }

  /** Main result: escaping an escaped value again, with the same room, changes nothing. */
  lemma EscapingIsIdempotent(src: string, stale: char, again: char, capacity: nat)
    ensures var text := Written(src, stale, capacity); Written(text, again, capacity) == text
  {
    var s := WrittenIsPrefix(src, stale, capacity);
    var text := EscapeAll(s);
    EscapedWell(s);
    LineIs(text, |text|);
    SelectEscaped(s, again);
    RunsThrough(text, again, capacity);
  }

  lemma {:induction false} StaleSelect(src: string, stale: char, n: nat)
    requires 0 < n <= |src| && '\0' !in src
    ensures Select(src, NUL, n)
         == if Special(src[0]) && src[0] == stale then [src[0]] + Select(src, stale, n) else Select(src, stale, n)
  {
    if n > 1 {
      StaleSelect(src, stale, n - 1);
    } else {
      assert Select(src, NUL, 0) == Select(src, stale, 0) == "";
    }
  }

  /** The text begins with the very special that last_ch happens to hold. */
  predicate Swallowed(src: string, stale: char) {
    src != "" && Special(src[0]) && src[0] == stale
  }

  /** The meaning is right exactly when nothing is swallowed; otherwise it lacks its first character. */
  lemma StaleCharacter(src: string, stale: char)
    requires NUL !in src
    ensures Meaning(src, stale) == Meaning(src, NUL) <==> !Swallowed(src, stale)
    ensures Meaning(src, stale) != Meaning(src, NUL) ==> Meaning(src, NUL) == [src[0]] + Meaning(src, stale)
  {
    if Line(src) > 0 {
      StaleSelect(src, stale, Line(src));
    }
  }

  /**
   * The buffer is too small to tell [c] + rest from rest: what fits of either is k times c, where k is the
   * number of escaped c's the room takes.
   */
  predicate TooSmallToTell(rest: string, c: char, room: int) {
    var k := if room < 0 then 0 else room / 2;
    && k <= |rest|
    && (forall i | 0 <= i < k :: rest[i] == c)
    && (k < |rest| ==> |EscapeChar(rest[k])| > room - 2 * k)
  }

  lemma {:induction false} EscapedRepeats(s: string, c: char)
    requires Special(c) && forall i | 0 <= i < |s| :: s[i] == c
    ensures |EscapeAll(s)| == 2 * |s|
  {
    if s != "" {
      EscapedRepeats(s[1..], c);
    }
  }

  /** The length of k escaped c's, and of one character more. */
  lemma RepeatsThenOne(s: string, c: char, k: nat)
    requires Special(c) && k <= |s| && forall i | 0 <= i < k :: s[i] == c
    ensures |EscapeAll(s[..k])| == 2 * k
    ensures k < |s| ==> |EscapeAll(s[..k + 1])| == 2 * k + |EscapeChar(s[k])|
  {
    EscapedRepeats(s[..k], c);
    if k < |s| {
      assert s[..k + 1] == s[..k] + [s[k]];
      EscapeOneMore(s[..k], s[k]);
    }
  }

  /** When both texts stop after the same k characters, those are c's and no more fits of either. */
  lemma StopTogether(rest: string, c: char, room: int, k: nat)
    requires Special(c) && k <= |rest| && (forall i | 0 <= i < k :: rest[i] == c)
    requires k == Fit([c] + rest, room, 0) == Fit(rest, room, 0)
    ensures TooSmallToTell(rest, c, room)
  {
    hide EscapeAll, EscapeChar, Special, Fit, TooSmallToTell;
    var all := [c] + rest;
    FitFits(all, room, 0);
    FitFits(rest, room, 0);
    StillRepeats(rest, c, k);
    RepeatsThenOne(all, c, k);
    RepeatsThenOne(rest, c, k);
    RoomForPairs(rest, c, room, k);
  }

  lemma RoomForPairs(rest: string, c: char, room: int, k: nat)
    requires k <= |rest| && forall i | 0 <= i < k :: rest[i] == c
    requires (k > 0 ==> 2 * k <= room) && 2 * k + 2 > room
    requires k < |rest| ==> 2 * k + |EscapeChar(rest[k])| > room
    ensures TooSmallToTell(rest, c, room)
  {
    hide EscapeChar;
  }

  lemma StillRepeats(rest: string, c: char, k: nat)
    requires Special(c) && k <= |rest| && forall i | 0 <= i < k :: rest[i] == c
    ensures var all := [c] + rest; k < |all| && (forall i | 0 <= i <= k :: all[i] == c) && |EscapeChar(all[k])| == 2
  {
  }

  lemma SamePrefix(rest: string, c: char, a: nat, b: nat)
    requires a <= |rest| + 1 && b <= |rest| && ([c] + rest)[..a] == rest[..b]
    ensures a == b && forall i | 0 <= i < a :: rest[i] == c
  {
    var all := [c] + rest;
    assert |all[..a]| == |rest[..b]|;
    AllTheHead(rest, c, a);
  }

  lemma {:induction false} AllTheHead(rest: string, c: char, a: nat)
    requires a <= |rest| && ([c] + rest)[..a] == rest[..a]
    ensures forall i | 0 <= i < a :: rest[i] == c
  {
    if a > 0 {
      var all := [c] + rest;
      assert all[..a - 1] == all[..a][..a - 1] && rest[..a - 1] == rest[..a][..a - 1];
      AllTheHead(rest, c, a - 1);
      assert rest[a - 1] == rest[..a][a - 1] == all[..a][a - 1] == all[a - 1];
    }
  }

  lemma FitsAlike(rest: string, c: char, room: int)
    requires Special(c) && Plain([c] + rest)
    ensures EscapeAll(([c] + rest)[..Fit([c] + rest, room, 0)]) == EscapeAll(rest[..Fit(rest, room, 0)])
      <==> TooSmallToTell(rest, c, room)
  {
    hide EscapeAll, Fit, Unescape;
    var all := [c] + rest;
    var a, b := Fit(all, room, 0), Fit(rest, room, 0);
    assert forall i | 0 <= i < |rest| :: all[i + 1] == rest[i];
    if EscapeAll(all[..a]) == EscapeAll(rest[..b]) {
      UnescapeEscaped(all[..a]);
      UnescapeEscaped(rest[..b]);
      SamePrefix(rest, c, a, b);
      StopTogether(rest, c, room, a);
    }
    if TooSmallToTell(rest, c, room) {
      var k := if room < 0 then 0 else room / 2;
      RepeatsThenOne(all, c, k);
      RepeatsThenOne(rest, c, k);
      FitStops(all, room, 0, k);
      FitStops(rest, room, 0, k);
      assert all[..k] == rest[..k];
    }
  }

  /**
   * What the uninitialised last_ch does to the buffer: nothing exactly when no character is swallowed, or
   * when the buffer is too small to show it.
   */
  lemma StaleBuffer(src: string, stale: char, capacity: nat)
    requires NUL !in src
    ensures Written(src, stale, capacity) == Written(src, NUL, capacity) <==>
      !Swallowed(src, stale) || TooSmallToTell(Meaning(src, stale), src[0], capacity - 1)
  {
    hide EscapeAll, Fit, Meaning, TooSmallToTell;
    StaleCharacter(src, stale);
    if Swallowed(src, stale) {
      PlainMeaning(src, NUL);
      FitsAlike(Meaning(src, stale), src[0], capacity - 1);
    }
  }
}
