/**
 * The greeting in the top navigation bar, derived from the signed-in
 * user's email: the avatar initial, the user name (the local part of the
 * address), and the display name made from it by turning each dot into a
 * space and capitalising each dot-separated word.
 */
module TopNav {
  import opened Options
  import opened Text

  /** `email?.charAt(0).toUpperCase() || "U"`. */
  function UserInitial(email: Option<string>): (r: string)
    ensures |r| == 1
    ensures email.Some? && email.value != "" ==> r == [UpperChar(email.value[0])]
    ensures email.None? || email.value == "" ==> r == "U"
  {
    if email.None? || email.value == "" then "U" else [UpperChar(email.value[0])]
  }

  /** `email?.split('@')[0] || "User"`: the text before the first `@`, or "User" when that is empty. */
  function UserName(email: Option<string>): (r: string)
    ensures r != ""
    ensures '@' !in r
    ensures email.Some? && FirstSegment(email.value, '@') != "" ==> StartsWith(email.value, r)
    ensures email.Some? && FirstSegment(email.value, '@') != "" && |r| < |email.value| ==> email.value[|r|] == '@'
    ensures email.None? || FirstSegment(email.value, '@') == "" ==> r == "User"
  {
    if email.None? then "User"
    else
      var local := FirstSegment(email.value, '@');
      if local == "" then "User" else local
  }

  /** `UserName` takes the first piece of splitting the address on `@`. */
  lemma UserNameIsFirstPiece(email: string)
    requires Split(email, '@')[0] != ""
    ensures UserName(Some(email)) == Split(email, '@')[0]
  {
    FirstSegmentIsFirstPiece(email, '@');
  }

  function CapitaliseAll(words: seq<string>): (r: seq<string>)
    ensures |r| == |words|
    ensures forall i :: 0 <= i < |r| ==> r[i] == Capitalise(words[i])
  {
    seq(|words|, i requires 0 <= i < |words| => Capitalise(words[i]))
  }

  /** `name.split('.').map(capitalise).join(' ')`. */
  function FormattedName(name: string): string {
    Join(CapitaliseAll(Split(name, '.')), ' ')
  }

  /**
   * The same transformation read character by character: a dot becomes a
   * space, a character at the start of a word (the start of the name when
   * `atStart`, or just after a dot) is upper-cased, every other character
   * is kept.
   */
  function Reference(name: string, atStart: bool): (r: string)
    ensures |r| == |name|
    decreases |name|
  {
    if |name| == 0 then ""
    else if name[0] == '.' then " " + Reference(name[1..], true)
    else [if atStart then UpperChar(name[0]) else name[0]] + Reference(name[1..], false)
  }

  /** The character the reference puts at position `i`. */
  function ReferenceAt(name: string, atStart: bool, i: int): char
    requires 0 <= i < |name|
  {
    if name[i] == '.' then ' '
    else if (i == 0 && atStart) || (i > 0 && name[i - 1] == '.') then UpperChar(name[i])
    else name[i]
  }

  lemma {:induction false} ReferencePointwise(name: string, atStart: bool, i: int)
    requires 0 <= i < |name|
    ensures Reference(name, atStart)[i] == ReferenceAt(name, atStart, i)
    decreases |name|
  {
    if i > 0 {
      ReferencePointwise(name[1..], name[0] == '.', i - 1);
    }
  }

  /** The formatted name with its first word capitalised or not. */
  function Formatted(name: string, atStart: bool): string {
    var words := Split(name, '.');
    Join([if atStart then Capitalise(words[0]) else words[0]] + CapitaliseAll(words[1..]), ' ')
  }

  /** Joining with the first part extended by a leading character extends the result by it. */
  lemma JoinConsFirst(y: char, a: string, rest: seq<string>, c: char)
    ensures Join([[y] + a] + rest, c) == [y] + Join([a] + rest, c)
  {
    if |rest| > 0 {
      assert ([[y] + a] + rest)[1..] == rest;
      assert ([a] + rest)[1..] == rest;
    }
  }

  lemma {:induction false} FormattedIsReference(name: string, atStart: bool)
    ensures Formatted(name, atStart) == Reference(name, atStart)
    decreases |name|
  {
    if |name| > 0 {
      var rest := Split(name[1..], '.');
      FormattedIsReference(name[1..], name[0] == '.');
      if name[0] == '.' {
        var words := [""] + rest;
        assert Split(name, '.') == words;
        assert words[1..] == rest;
        var capped := CapitaliseAll(rest);
        assert [Capitalise(rest[0])] + CapitaliseAll(rest[1..]) == capped;
        assert Join([""] + capped, ' ') == "" + " " + Join(capped, ' ');
        assert ([if atStart then Capitalise("") else ""] + capped) == [""] + capped;
      } else {
        var first := [name[0]] + rest[0];
        assert Split(name, '.') == [first] + rest[1..];
        assert ([first] + rest[1..])[1..] == rest[1..];
        var y := if atStart then UpperChar(name[0]) else name[0];
        assert (if atStart then Capitalise(first) else first) == [y] + rest[0];
        JoinConsFirst(y, rest[0], CapitaliseAll(rest[1..]), ' ');
      }
    }
  }

  /** `FormattedName` equals the character-by-character reference. */
  lemma FormattedNameIsReference(name: string)
    ensures FormattedName(name) == Reference(name, true)
  {
    FormattedIsReference(name, true);
    var words := Split(name, '.');
    assert [Capitalise(words[0])] + CapitaliseAll(words[1..]) == CapitaliseAll(words);
  }

  /**
   * The display name keeps the user name's length; each dot becomes a
   * space, word-initial characters are upper-cased, and nothing else
   * changes; so no dot is left.
   */
  lemma FormattedNameShape(name: string)
    ensures |FormattedName(name)| == |name|
    ensures forall i :: 0 <= i < |name| ==> FormattedName(name)[i] == ReferenceAt(name, true, i)
    ensures '.' !in FormattedName(name)
  {
    FormattedNameIsReference(name);
    forall i | 0 <= i < |name|
      ensures FormattedName(name)[i] == ReferenceAt(name, true, i)
      ensures FormattedName(name)[i] != '.'
    {
      ReferencePointwise(name, true, i);
    }
  }

  lemma {:induction false} ReferenceSpaces(name: string, atStart: bool)
    requires ' ' !in name
    ensures Count(Reference(name, atStart), ' ') == Count(name, '.')
    decreases |name|
  {
    if |name| > 0 {
      ReferenceSpaces(name[1..], name[0] == '.');
      var r := Reference(name, atStart);
      assert r[1..] == Reference(name[1..], name[0] == '.');
      assert name[0] != '.' ==> r[0] != ' ';
    }
  }

  /** For a name without spaces, the display name has one word per dot-separated segment. */
  lemma WordCount(name: string)
    requires ' ' !in name
    ensures |Split(FormattedName(name), ' ')| == Count(name, '.') + 1
    ensures |Split(FormattedName(name), ' ')| == |Split(name, '.')|
  {
    FormattedNameIsReference(name);
    ReferenceSpaces(name, true);
  }

  /** A user name of two dot-separated words shows as the two words capitalised, with a space. */
  lemma TwoWordName(first: string, last: string)
    requires '.' !in first && '.' !in last
    ensures FormattedName(first + "." + last) == Capitalise(first) + " " + Capitalise(last)
  {
    SplitAround(first, '.', last);
    SplitFree(last, '.');
    var words := Split(first + "." + last, '.');
    assert words == [first, last];
    var capped := [Capitalise(first), Capitalise(last)];
    assert CapitaliseAll(words) == capped;
    assert capped[1..] == [Capitalise(last)];
    assert Join(capped, ' ') == Capitalise(first) + [' '] + Capitalise(last);
  }

  /** The greeting for `john.smith@example.com` is "John Smith". */
  lemma GreetingExample()
    ensures FormattedName("john" + "." + "smith") == "John" + " " + "Smith"
  {
    TwoWordName("john", "smith");
    assert UpperChar('j') == 'J' && UpperChar('s') == 'S';
    assert Capitalise("john") == "John" && Capitalise("smith") == "Smith";
  }

  /** Without an email the greeting is "User". */
  lemma AnonymousGreeting()
    ensures FormattedName(UserName(None)) == "User"
  {
    FormattedNameShape("User");
    forall i | 0 <= i < 4
      ensures FormattedName("User")[i] == "User"[i]
    {
      assert ReferenceAt("User", true, i) == "User"[i];
    }
  }
}
