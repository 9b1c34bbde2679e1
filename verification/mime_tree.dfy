/** The MIME part tree of a message and the normaliser that prepares it for
    saving: every textual leaf is switched to the 8-bit transfer encoding, at
    any depth through multiparts and embedded messages; nothing else changes. */
module MimeTree {

  /** Content-Transfer-Encoding values a part can carry. */
  datatype Encoding = Default | SevenBit | EightBit | Base64 | QuotedPrintable | Binary | UuEncode

  /** A content type `mediaType/subType`, e.g. `text/plain`. */
  datatype ContentType = ContentType(mediaType: string, subType: string)

  /** A MIME part: its own transfer encoding and its content. */
  datatype Part = Part(encoding: Encoding, content: Content)

  /** What a part holds: nothing, the children of a multipart, an embedded
      message (itself a part), or a leaf of some content type. */
  datatype Content =
    | NoContent
    | Multipart(children: seq<Part>)
    | Embedded(message: Part)
    | Leaf(contentType: ContentType)

  function AsciiLower(c: char): char {
    if 'A' <= c <= 'Z' then (c as int + 32) as char else c
  }

  /** Whether a content type has the media type `text`; the media type is compared
      without regard to ASCII case, any subtype matches. */
  predicate IsText(t: ContentType) {
    && |t.mediaType| == 4
    && forall k :: 0 <= k < 4 ==> AsciiLower(t.mediaType[k]) == "text"[k]
  }

  /** Every textual leaf in the tree carries the 8-bit encoding. */
  predicate TextLeaves8Bit(p: Part)
    decreases p
  {
    match p.content
    case NoContent => true
    case Multipart(children) => forall k :: 0 <= k < |children| ==> TextLeaves8Bit(children[k])
    case Embedded(message) => TextLeaves8Bit(message)
    case Leaf(t) => IsText(t) ==> p.encoding == EightBit
  }

  /** `q` has the shape, content types and encodings of `p`, except possibly
      the encodings of textual leaves. */
  predicate Agrees(p: Part, q: Part)
    decreases p
  {
    match p.content
    case NoContent =>
      q.content.NoContent? && q.encoding == p.encoding
    case Multipart(children) =>
      && q.content.Multipart?
      && q.encoding == p.encoding
      && |q.content.children| == |children|
      && forall k :: 0 <= k < |children| ==> Agrees(children[k], q.content.children[k])
    case Embedded(message) =>
      q.content.Embedded? && q.encoding == p.encoding && Agrees(message, q.content.message)
    case Leaf(t) =>
      q.content == p.content && (IsText(t) || q.encoding == p.encoding)
  }

  /** Prepares a part for saving: descends into every child of a multipart
      and into an embedded message, and sets the encoding of each textual
      leaf to 8-bit. */
  function Normalize(p: Part): (r: Part)
    ensures TextLeaves8Bit(r)
    ensures Agrees(p, r)
    decreases p
  {
    match p.content
    case NoContent => p
    case Multipart(children) =>
      Part(p.encoding, Multipart(seq(|children|, k requires 0 <= k < |children| => Normalize(children[k]))))
    case Embedded(message) => Part(p.encoding, Embedded(Normalize(message)))
    case Leaf(t) => if IsText(t) then Part(EightBit, p.content) else p
  }

  lemma {:induction false} AgreesReflexive(p: Part)
    ensures Agrees(p, p)
    decreases p
  {
    match p.content
    case NoContent =>
    case Multipart(children) =>
      forall k | 0 <= k < |children| ensures Agrees(children[k], children[k]) {
        AgreesReflexive(children[k]);
      }
    case Embedded(message) => AgreesReflexive(message);
    case Leaf(t) =>
  }

  /** The normal form is unique: a tree that agrees with `p` and has all its
      textual leaves in 8-bit is exactly `Normalize(p)`. */
  lemma {:induction false} NormalizeUnique(p: Part, q: Part)
    requires Agrees(p, q) && TextLeaves8Bit(q)
    ensures q == Normalize(p)
    decreases p
  {
    match p.content
    case NoContent =>
    case Multipart(children) =>
      var qs := q.content.children;
      var rs := Normalize(p).content.children;
      forall k | 0 <= k < |children| ensures qs[k] == rs[k] {
        NormalizeUnique(children[k], qs[k]);
      }
      assert qs == rs;
    case Embedded(message) => NormalizeUnique(message, q.content.message);
    case Leaf(t) =>
  }

  /** Normalisation is characterised by the two properties of its contract. */
  lemma {:induction false} NormalizeCharacterized(p: Part, q: Part)
    ensures Normalize(p) == q <==> Agrees(p, q) && TextLeaves8Bit(q)
  {
    if Agrees(p, q) && TextLeaves8Bit(q) {
      NormalizeUnique(p, q);
    }
  }

  /** A tree is left unchanged exactly when its textual leaves are already
      8-bit. */
  lemma {:induction false} NormalizeFixedPoint(p: Part)
    ensures Normalize(p) == p <==> TextLeaves8Bit(p)
  {
    if TextLeaves8Bit(p) {
      AgreesReflexive(p);
      NormalizeUnique(p, p);
    }
  }

  /** Normalising twice is the same as normalising once. */
  lemma {:induction false} NormalizeIdempotent(p: Part)
    ensures Normalize(Normalize(p)) == Normalize(p)
  {
    NormalizeFixedPoint(Normalize(p));
  }
}
