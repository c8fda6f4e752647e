/**
 * Lambda.Letter: three text transformations and the pipelines built from
 * them with Function.andThen.
 */
module Chap3Letter {
  import opened Functions

  const Header: string := "From Chris: "
  const Footer: string := " Kind regards"

  /** Letter.addHeader */
  function AddHeader(text: string): string
  {
    Header + text
  }

  /** Letter.addFooter */
  function AddFooter(text: string): string
  {
    text + Footer
  }

  /** String.replaceAll(target, replacement) for a target without regular
      expression metacharacters: scans from the left and replaces every
      occurrence that does not overlap one already replaced. */
  function ReplaceAll(text: string, target: string, replacement: string): string
    requires target != []
  {
    if |text| < |target| then text
    else if text[..|target|] == target
    then replacement + ReplaceAll(text[|target|..], target, replacement)
    else [text[0]] + ReplaceAll(text[1..], target, replacement)
  }

  /** The target occurs in text at position k. */
  predicate OccursAt(text: string, target: string, k: nat)
  {
    k + |target| <= |text| && text[k..k + |target|] == target
  }

  /** Text in which the target does not occur is left as it is. */
  lemma {:induction false} ReplaceAllAbsent(text: string, target: string, replacement: string)
    requires target != []
    requires forall k: nat :: !OccursAt(text, target, k)
    ensures ReplaceAll(text, target, replacement) == text
  {
    if |text| >= |target| {
      assert !OccursAt(text, target, 0);
      forall k: nat ensures !OccursAt(text[1..], target, k) {
        assert !OccursAt(text, target, k + 1);
        if k + |target| <= |text[1..]| {
          assert text[1..][k..k + |target|] == text[k + 1..k + 1 + |target|];
        }
      }
      ReplaceAllAbsent(text[1..], target, replacement);
    }
  }

  /** A prefix none of whose characters can start the target is copied
      unchanged. */
  lemma {:induction false} ReplaceAllPrefix(h: string, t: string, target: string, replacement: string)
    requires target != []
    requires target[0] !in h
    ensures ReplaceAll(h + t, target, replacement) == h + ReplaceAll(t, target, replacement)
  {
    if h == [] {
      assert h + t == t;
    } else {
      var s := h + t;
      if |s| < |target| {
        ReplaceAllShort(t, target, replacement);
      } else {
        assert s[..|target|][0] == h[0] != target[0];
        assert s[1..] == h[1..] + t;
        ReplaceAllPrefix(h[1..], t, target, replacement);
      }
    }
  }

  lemma ReplaceAllShort(t: string, target: string, replacement: string)
    requires target != [] && |t| < |target|
    ensures ReplaceAll(t, target, replacement) == t
  {
  }

  /** Letter.checkSpelling */
  function CheckSpelling(text: string): string
  {
    ReplaceAll(text, "labda", "lambda")
  }

  lemma CheckSpellingExample()
    ensures CheckSpelling("labda!") == "lambda!"
  {
    assert "labda!"[..5] == "labda" && "labda!"[5..] == "!";
  }

  /** addHeader.andThen(checkSpelling).andThen(addFooter) */
  function Pipeline1(): string -> string
  {
    AndThen(AndThen(AddHeader, CheckSpelling), AddFooter)
  }

  /** The header contains no 'l', so spelling is checked on the text alone:
      the letter is the header, the corrected text and the footer. */
  lemma Pipeline1Letter(text: string)
    ensures Pipeline1()(text) == Header + CheckSpelling(text) + Footer
  {
    var p := Pipeline1();
    assert p(text) == AddFooter(CheckSpelling(AddHeader(text)));
    CheckSpellingAfterHeader(text);
  }

  lemma CheckSpellingAfterHeader(text: string)
    ensures CheckSpelling(Header + text) == Header + CheckSpelling(text)
  {
    HeaderHasNoL();
    ReplaceAllPrefix(Header, text, "labda", "lambda");
  }

  lemma HeaderHasNoL()
    ensures 'l' !in Header
  {
  }

  /** The second pipeline as written: addHeader.andThen(Letter::addHeader),
      under the comment "addHeader -> addFooter". */
  function Pipeline2AsWritten(): string -> string
  {
    AndThen(AddHeader, AddHeader)
  }

  /** The pipeline the comment names: addHeader.andThen(Letter::addFooter). */
  function Pipeline2(): string -> string
  {
    AndThen(AddHeader, AddFooter)
  }

  /** As written, the letter gets the header twice and no footer, on every
      text; the pipeline the comment names frames the text instead. */
  lemma Pipeline2AsWrittenDoublesHeader(text: string)
    ensures Pipeline2AsWritten()(text) == Header + Header + text
    ensures Pipeline2AsWritten()(text) != Pipeline2()(text)
  {
    var p, q := Pipeline2AsWritten(), Pipeline2();
    assert p(text) == Header + Header + text;
    assert q(text) == Header + text + Footer;
    assert |p(text)| != |q(text)|;
  }

  lemma Pipeline2Letter(text: string)
    ensures Pipeline2()(text) == Header + text + Footer
  {
    var q := Pipeline2();
    assert q(text) == AddFooter(AddHeader(text));
  }
}
