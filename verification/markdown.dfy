/** `formatBlogPostAsMarkdown` (utils.ts): a blog post laid out as one Markdown document
    with a fixed order of sections, trimmed at both ends. */
module MarkdownExport {
  import opened Types
  import opened JsText

  /** The bullet written for a key point. */
  function KeyPointLine(point: string): (line: string) {
    "- " + point + "\n"
  }

  /** The bullet written for a timestamped note, with the time in bold. */
  function NoteLine(ts: Timestamp): (line: string) {
    "- **" + ts.time + "**: " + ts.description + "\n"
  }

  /** The bullets of the key points, one per point and in the same order. */
  function KeyPointBullets(points: seq<string>): (bullets: seq<string>)
    ensures |bullets| == |points|
  {
    if points == [] then [] else [KeyPointLine(points[0])] + KeyPointBullets(points[1..])
  }

  /** The bullets of the timestamped notes, one per note and in the same order. */
  function NoteBullets(notes: seq<Timestamp>): (bullets: seq<string>)
    ensures |bullets| == |notes|
  {
    if notes == [] then [] else [NoteLine(notes[0])] + NoteBullets(notes[1..])
  }

  /** The bullet of key point `k` is "- " + point + "\n". */
  lemma {:induction false} KeyPointBulletAt(points: seq<string>, k: nat)
    requires k < |points|
    ensures KeyPointBullets(points)[k] == KeyPointLine(points[k])
  {
    if k > 0 {
      KeyPointBulletAt(points[1..], k - 1);
    }
  }

  /** The bullet of note `k` is "- **" + time + "**: " + description + "\n". */
  lemma {:induction false} NoteBulletAt(notes: seq<Timestamp>, k: nat)
    requires k < |notes|
    ensures NoteBullets(notes)[k] == NoteLine(notes[k])
  {
    if k > 0 {
      NoteBulletAt(notes[1..], k - 1);
    }
  }

  /** The first `n` lines written one after the other. */
  function Concat(lines: seq<string>, n: nat): (text: string)
    requires n <= |lines|
  {
    if n == 0 then [] else Concat(lines, n - 1) + lines[n - 1]
  }

  /** The title, the summary and the body, each with its own template, then the
      "## Key Points" heading. */
  function Heading(post: BlogPost): (text: string) {
    ("# " + post.title + "\n\n") + ("## Summary\n" + post.summary + "\n\n") + (post.body + "\n\n") + "## Key Points\n"
  }

  /** Everything up to the last letter of the "## Timestamped Notes" heading: the heading,
      the key point bullets, a blank line and the notes heading. */
  function Through(post: BlogPost): (text: string) {
    Heading(post) + Concat(KeyPointBullets(post.keyPoints), |post.keyPoints|) + "\n" + "## Timestamped Notes"
  }

  /** What follows the notes heading: its line break, the note bullets and a final blank line. */
  function NotesTail(post: BlogPost): (text: string) {
    "\n" + Concat(NoteBullets(post.timestamps), |post.timestamps|) + "\n"
  }

  /** The document before the final trim. */
  function Document(post: BlogPost): (text: string) {
    Through(post) + NotesTail(post)
  }

  /** Appends the sections one after the other, one bullet per key point and per note,
      and trims the result. */
  method FormatBlogPostAsMarkdown(post: BlogPost) returns (markdown: string)
    ensures markdown == Trim(Document(post))
  {
    var md := "";
    md := md + ("# " + post.title + "\n\n");
    md := md + ("## Summary\n" + post.summary + "\n\n");
    md := md + (post.body + "\n\n");
    md := md + "## Key Points\n";
    assert md == Heading(post);
    md := AppendKeyPoints(md, post.keyPoints);
    md := md + "\n";
    ghost var opening := md;
    md := md + "## Timestamped Notes\n";
    Assoc(opening, "## Timestamped Notes", "\n");
    assert "## Timestamped Notes" + "\n" == "## Timestamped Notes\n";
    assert md == Through(post) + "\n";
    md := AppendNotes(md, post.timestamps);
    ghost var notes := Concat(NoteBullets(post.timestamps), |post.timestamps|);
    Assoc(Through(post), "\n", notes);
    Assoc(Through(post), "\n" + notes, "\n");
    md := md + "\n";
    markdown := Trim(md);
  }

  /** The first `forEach`: one bullet per key point, in order, after what is written so far. */
  method AppendKeyPoints(md: string, points: seq<string>) returns (r: string)
    ensures r == md + Concat(KeyPointBullets(points), |points|)
  {
    r := md;
    for i := 0 to |points|
      invariant r == md + Concat(KeyPointBullets(points), i)
    {
      KeyPointBulletAt(points, i);
      Assoc(md, Concat(KeyPointBullets(points), i), KeyPointLine(points[i]));
      r := r + ("- " + points[i] + "\n");
    }
  }

  /** The second `forEach`: one bullet per timestamped note, in order, after what is written
      so far. */
  method AppendNotes(md: string, notes: seq<Timestamp>) returns (r: string)
    ensures r == md + Concat(NoteBullets(notes), |notes|)
  {
    r := md;
    for i := 0 to |notes|
      invariant r == md + Concat(NoteBullets(notes), i)
    {
      NoteBulletAt(notes, i);
      Assoc(md, Concat(NoteBullets(notes), i), NoteLine(notes[i]));
      var ts := notes[i];
      r := r + ("- **" + ts.time + "**: " + ts.description + "\n");
    }
  }

  /** Concatenation is associative; called where the grouping of the appends differs from
      the grouping of the definitions. */
  lemma Assoc(a: string, b: string, c: string)
    ensures (a + b) + c == a + (b + c)
  {
  }

  /** The first `m` lines begin the first `n`, for `m <= n`. */
  lemma {:induction false} ConcatPrefix(lines: seq<string>, m: nat, n: nat)
    requires m <= n <= |lines|
    ensures |Concat(lines, m)| <= |Concat(lines, n)|
    ensures Concat(lines, n)[..|Concat(lines, m)|] == Concat(lines, m)
    decreases n
  {
    if m < n {
      ConcatPrefix(lines, m, n - 1);
      var shorter := Concat(lines, n - 1);
      assert Concat(lines, n) == shorter + lines[n - 1];
      assert Concat(lines, n)[..|shorter|] == shorter;
    }
  }

  /** Line `k` is written whole, right after the lines before it. */
  lemma LineInPlace(lines: seq<string>, k: nat)
    requires k < |lines|
    ensures var all, at := Concat(lines, |lines|), |Concat(lines, k)|;
      at + |lines[k]| <= |all| && all[at..at + |lines[k]|] == lines[k]
  {
    ConcatPrefix(lines, k + 1, |lines|);
    var upTo := Concat(lines, k + 1);
    assert upTo == Concat(lines, k) + lines[k];
    assert upTo[|Concat(lines, k)|..] == lines[k];
  }

  /** The trimmed output starts with `Through` verbatim (title, summary, body, key points and
      the notes heading), nothing but whitespace was cut from the end, the first character is
      the '#' of the title and the last one is not whitespace. Without notes the output ends
      with the "## Timestamped Notes" heading. */
  lemma MarkdownShape(post: BlogPost)
    ensures var md, doc, p := Trim(Document(post)), Document(post), Through(post);
      && |p| <= |md| && md[..|p|] == p
      && md[0] == '#' && !IsWhitespace(md[|md| - 1])
      && doc == md + doc[|md|..] && AllWhitespace(doc[|md|..])
      && (post.timestamps == [] ==> md == p)
  {
    var p, tail := Through(post), NotesTail(post);
    ThroughEnds(post);
    TrimAfterFixedStart(Document(post), p, tail);
    if post.timestamps == [] {
      assert tail == "\n\n";
      assert tail[..1] == "\n" && tail[..1][..0] == [];
    }
  }

  /** Where the bullet of key point `k` starts: after the heading and the bullets before it. */
  function KeyPointOffset(post: BlogPost, k: nat): (offset: nat)
    requires k <= |post.keyPoints|
  {
    |Heading(post)| + |Concat(KeyPointBullets(post.keyPoints), k)|
  }

  /** Every key point's bullet appears whole in `Through`, which the output starts with,
      right after the heading and the bullets of the points before it (`KeyPointBulletAt`
      says what the bullet is). */
  lemma KeyPointInPlace(post: BlogPost, k: nat)
    requires k < |post.keyPoints|
    ensures KeyPointOffset(post, k) + |KeyPointBullets(post.keyPoints)[k]| <= |Through(post)|
    ensures Through(post)[KeyPointOffset(post, k)..KeyPointOffset(post, k) + |KeyPointBullets(post.keyPoints)[k]|]
      == KeyPointBullets(post.keyPoints)[k]
  {
    var heading, bullets := Heading(post), KeyPointBullets(post.keyPoints);
    var lines := Concat(bullets, |bullets|);
    LineInPlace(bullets, k);
    Assoc(heading + lines, "\n", "## Timestamped Notes");
    Between(Through(post), heading, lines, "\n" + "## Timestamped Notes", |Concat(bullets, k)|, |bullets[k]|);
  }

  /** Where the bullet of note `k` starts: after the notes heading, its line break and the
      bullets before it. */
  function NoteOffset(post: BlogPost, k: nat): (offset: nat)
    requires k <= |post.timestamps|
  {
    |Through(post) + "\n"| + |Concat(NoteBullets(post.timestamps), k)|
  }

  /** Every note's bullet appears whole in the document that is trimmed, right after the
      notes heading and the bullets before it (`NoteBulletAt` says what the bullet is). */
  lemma NoteInPlace(post: BlogPost, k: nat)
    requires k < |post.timestamps|
    ensures NoteOffset(post, k) + |NoteBullets(post.timestamps)[k]| <= |Document(post)|
    ensures Document(post)[NoteOffset(post, k)..NoteOffset(post, k) + |NoteBullets(post.timestamps)[k]|]
      == NoteBullets(post.timestamps)[k]
  {
    var bullets := NoteBullets(post.timestamps);
    var notes := Concat(bullets, |bullets|);
    LineInPlace(bullets, k);
    var p := Through(post);
    Assoc(p, "\n" + notes, "\n");
    Assoc(p, "\n", notes);
    Between(Document(post), p + "\n", notes, "\n", |Concat(bullets, k)|, |bullets[k]|);
  }

  /** `Through` starts with the '#' of the title and ends with the last letter of a heading. */
  lemma ThroughEnds(post: BlogPost)
    ensures var p := Through(post); p != [] && p[0] == '#' && p[|p| - 1] == 's'
  {
  }

  /** A slice of the middle part of `opening + middle + closing`. */
  lemma Between(text: string, opening: string, middle: string, closing: string, i: nat, len: nat)
    requires text == opening + middle + closing
    requires i + len <= |middle|
    ensures |opening| + i + len <= |text| && text[|opening| + i..|opening| + i + len] == middle[i..i + len]
  {
    SliceRight(opening, middle, |opening| + i, |opening| + i + len);
    SliceLeft(opening + middle, closing, |opening| + i, |opening| + i + len);
  }

  /** A slice inside the left operand of a concatenation. */
  lemma SliceLeft(x: string, y: string, i: nat, j: nat)
    requires i <= j <= |x|
    ensures (x + y)[i..j] == x[i..j]
  {
  }

  /** A slice inside the right operand of a concatenation. */
  lemma SliceRight(x: string, y: string, i: nat, j: nat)
    requires |x| <= i <= j <= |x| + |y|
    ensures (x + y)[i..j] == y[i - |x|..j - |x|]
  {
  }

  /** The heading of a post titled "T" with summary "S" and body "B". */
  lemma ExampleHeading()
    ensures Heading(BlogPost("T", "S", "B", [], [], [])) == "# T\n\n## Summary\nS\n\nB\n\n## Key Points\n"
  {
  }

  /** A post without key points or notes ends with the notes heading. */
  lemma ExampleEmptyLists()
    ensures Trim(Document(BlogPost("T", "S", "B", [], [], [])))
      == "# T\n\n## Summary\nS\n\nB\n\n## Key Points\n" + "\n" + "## Timestamped Notes"
  {
    var post := BlogPost("T", "S", "B", [], [], []);
    WithoutLists(post);
    ExampleHeading();
  }

  /** Without key points or notes, the output is the heading, a blank line and the notes
      heading. */
  lemma WithoutLists(post: BlogPost)
    requires post.keyPoints == [] && post.timestamps == []
    ensures Trim(Document(post)) == Heading(post) + "\n" + "## Timestamped Notes"
  {
    MarkdownShape(post);
    assert Concat(KeyPointBullets(post.keyPoints), 0) == [];
  }
}
