/**
 * Text of an uploaded PDF: the page texts joined with no separator and
 * stripped of surrounding whitespace (`extract_text_from_pdf`, app.py:30-35),
 * and the upload loop that pairs each file name with its text (app.py:82-91).
 * Page texts are given: the PDF parser itself is not part of this model.
 */
module PdfText {

  /** The ASCII characters Python's `str.isspace` accepts: space, \t \n \v \f \r and \x1c-\x1f. */
  predicate IsSpace(c: char) {
    c == ' ' || 9 <= c as int <= 13 || 28 <= c as int <= 31
  }

  /** Number of whitespace characters at the front of `s`. */
  function LeadingSpaces(s: string): (n: nat)
    ensures n <= |s|
    ensures forall k :: 0 <= k < n ==> IsSpace(s[k])
    ensures n < |s| ==> !IsSpace(s[n])
  {
    if s == [] || !IsSpace(s[0]) then 0 else 1 + LeadingSpaces(s[1..])
  }

  /** Number of whitespace characters at the back of `s`. */
  function TrailingSpaces(s: string): (n: nat)
    ensures n <= |s|
    ensures forall k :: |s| - n <= k < |s| ==> IsSpace(s[k])
    ensures n < |s| ==> !IsSpace(s[|s| - 1 - n])
  {
    if s == [] || !IsSpace(s[|s| - 1]) then 0 else 1 + TrailingSpaces(s[..|s| - 1])
  }

  /**
   * `s[i..j]` is `s` with its whitespace removed at both ends: everything
   * outside is whitespace and, unless nothing is left, the first and last
   * characters kept are not.
   */
  ghost predicate IsTrimmedSlice(s: string, i: int, j: int) {
    && 0 <= i <= j <= |s|
    && (forall k :: 0 <= k < i ==> IsSpace(s[k]))
    && (forall k :: j <= k < |s| ==> IsSpace(s[k]))
    && (i < j ==> !IsSpace(s[i]) && !IsSpace(s[j - 1]))
  }

  /** Python's `str.strip()` with no argument, on the ASCII whitespace above. */
  function Strip(s: string): (r: string)
    ensures |r| <= |s|
    ensures r == [] <==> forall k :: 0 <= k < |s| ==> IsSpace(s[k])
    ensures r != [] ==> !IsSpace(r[0]) && !IsSpace(r[|r| - 1])
    ensures exists i, j :: IsTrimmedSlice(s, i, j) && r == s[i..j]
  {
    var i := LeadingSpaces(s);
    var t := TrailingSpaces(s[i..]);
    assert IsTrimmedSlice(s, i, |s| - t);
    s[i..|s| - t]
  }

  /** Whatever bounds satisfy the trimming condition, they cut out exactly `Strip(s)`. */
  lemma StripIsTheTrimmedSlice(s: string, i: int, j: int)
    requires IsTrimmedSlice(s, i, j)
    ensures Strip(s) == s[i..j]
  {
  }

  /** Stripping twice changes nothing more. */
  lemma StripIdempotent(s: string)
    ensures Strip(Strip(s)) == Strip(s)
  {
  }

  /** The page texts joined in order with no separator. */
  function Concat(pages: seq<string>): string
    decreases |pages|
  {
    if pages == [] then "" else Concat(pages[..|pages| - 1]) + pages[|pages| - 1]
  }

  lemma {:induction false} ConcatAppend(a: seq<string>, b: seq<string>)
    ensures Concat(a + b) == Concat(a) + Concat(b)
    decreases |b|
  {
    if b == [] {
      assert a + b == a;
    } else {
      var b' := b[..|b| - 1];
      assert (a + b)[..|a + b| - 1] == a + b';
      ConcatAppend(a, b');
    }
  }

  /** Page `i` appears whole in the joined text, after all earlier pages and before all later ones. */
  lemma ConcatSplit(pages: seq<string>, i: nat)
    requires i < |pages|
    ensures Concat(pages) == Concat(pages[..i]) + pages[i] + Concat(pages[i + 1..])
    ensures |Concat(pages)| == |Concat(pages[..i])| + |pages[i]| + |Concat(pages[i + 1..])|
  {
    assert pages == pages[..i] + [pages[i]] + pages[i + 1..];
    ConcatAppend(pages[..i] + [pages[i]], pages[i + 1..]);
    ConcatAppend(pages[..i], [pages[i]]);
    assert Concat([pages[i]]) == pages[i] by {
      assert [pages[i]][..0] == [];
    }
  }

  /** The text `extract_text_from_pdf` returns for a document with these pages. */
  function DocumentText(pages: seq<string>): string {
    Strip(Concat(pages))
  }

  /** The page loop of `extract_text_from_pdf`: `text += page.get_text()`, then `text.strip()`. */
  method ExtractTextFromPdf(pages: seq<string>) returns (text: string)
    ensures text == DocumentText(pages)
  {
    text := "";
    for i := 0 to |pages|
      invariant text == Concat(pages[..i])
    {
      assert pages[..i + 1][..i] == pages[..i];
      text := text + pages[i];
    }
    assert pages[..|pages|] == pages;
    text := Strip(text);
  }

  /** An uploaded file: its name and the text of each of its pages. */
  datatype Upload = Upload(name: string, pages: seq<string>)

  /** One entry of `batch_texts`: `{"Source": file.name, "Text": text}`. */
  datatype SourceText = SourceText(source: string, text: string)

  /** The upload loop: one entry per file, in upload order. */
  method CollectTexts(files: seq<Upload>) returns (batch: seq<SourceText>)
    ensures |batch| == |files|
    ensures forall i :: 0 <= i < |files| ==>
      batch[i].source == files[i].name && batch[i].text == DocumentText(files[i].pages)
  {
    batch := [];
    for i := 0 to |files|
      invariant |batch| == i
      invariant forall k :: 0 <= k < i ==> batch[k] == SourceText(files[k].name, DocumentText(files[k].pages))
    {
      var text := ExtractTextFromPdf(files[i].pages);
      batch := batch + [SourceText(files[i].name, text)];
    }
  }
}
