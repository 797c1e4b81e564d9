/** The three plain-text shapes every room member receives over its connection. */
module Wire {

  /** `"%s joined the room!"`, broadcast after a member is inserted. */
  function JoinedNotice(name: string): (r: string)
    ensures |r| == |name| + 17 && r[..|name|] == name && r[|name|] == ' '
  {
    name + " joined the room!"
  }

  /** `"%s left the room!"`, broadcast after a member is deleted. */
  function LeftNotice(name: string): (r: string)
    ensures |r| == |name| + 15 && r[..|name|] == name && r[|name|] == ' '
  {
    name + " left the room!"
  }

  /** `"%s: %s"`, the tag put on every message a relay loop reads. */
  function ChatLine(name: string, text: string): (r: string)
    ensures |r| == |name| + 2 + |text|
    ensures r[..|name|] == name && r[|name|] == ':' && r[|name| + 2..] == text
  {
    name + ": " + text
  }

  /** A recipient that knows the sender's name recovers the text exactly. */
  lemma ChatLineRecoversText(name: string, a: string, b: string)
    ensures ChatLine(name, a) == ChatLine(name, b) ==> a == b
  {
    if ChatLine(name, a) == ChatLine(name, b) {
      assert a == ChatLine(name, a)[|name| + 2..];
      assert b == ChatLine(name, b)[|name| + 2..];
    }
  }

  /** For one sender name a chat line never equals that name's own notices:
      the character right after the name is ':' in one and ' ' in the others. */
  lemma OwnNoticesAreDistinct(name: string, text: string)
    ensures ChatLine(name, text) != JoinedNotice(name)
    ensures ChatLine(name, text) != LeftNotice(name)
  {
    assert ChatLine(name, text)[|name|] == ':';
    assert JoinedNotice(name)[|name|] == ' ';
    assert LeftNotice(name)[|name|] == ' ';
  }

  /** Across senders the flat format is ambiguous: a chat line can spell out
      the notice of a member whose name contains ": ". */
  lemma ChatCanSpellANotice(name: string, text: string)
    ensures ChatLine(name, text + " joined the room!") == JoinedNotice(ChatLine(name, text))
    ensures ChatLine(name, text + " left the room!") == LeftNotice(ChatLine(name, text))
  {
  }
}
