/**
 * The fenced code block both formatters emit: a newline, three backticks and
 * a language tag, the code on its own lines, and a closing fence followed by a
 * newline. `Unfenced` reads such a block back; it is the inverse the
 * formatters are checked against.
 */
module CodeBlock {
  import opened Wrappers
  import opened Strings

  const FenceMark: string := "```"

  /** `f"\n```{lang}\n{body}\n```\n"`. */
  function Fenced(lang: string, body: string): string {
    "\n" + FenceMark + lang + "\n" + body + "\n" + FenceMark + "\n"
  }

  /** The language tag and the body of a fenced block, when `r` is one. */
  function Unfenced(r: string): Option<(string, string)> {
    if StartsWith(r, "\n```") && EndsWith(r[4..], "\n```\n") then
      var inner := r[4..|r| - 5];
      match FindFirst(inner, "\n")
      case Some(k) => Some((inner[..k], inner[k + 1..]))
      case None => None
    else None
  }

  /** A newline-free tag and any body survive the round trip through the envelope. */
  lemma UnfencedFenced(lang: string, body: string)
    requires '\n' !in lang
    ensures Unfenced(Fenced(lang, body)) == Some((lang, body))
  {
    var r := Fenced(lang, body);
    assert r == "\n```" + (lang + "\n" + body) + "\n```\n";
    assert r[..4] == "\n```";
    assert r[4..][|r[4..]| - 5..] == "\n```\n";
    var inner := r[4..|r| - 5];
    assert inner == lang + "\n" + body;
    NotContainsChar(lang, '\n');
    FindFirstAfter(lang, "\n", body);
    assert inner[..|lang|] == lang;
    assert inner[|lang| + 1..] == body;
  }
}
