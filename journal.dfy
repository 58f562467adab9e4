/**
 * The records the journal stores and the constants its screens share
 * (types.ts and constants.ts).
 */
module Journal {

  /**
   * A point in time as the application keeps it: the ISO-8601 text that is
   * stored, and the instant in milliseconds that parsing that text yields.
   */
  datatype Timestamp = Timestamp(iso: string, millis: int)

  /** One journal entry. Entries are never edited after they are created. */
  datatype Entry = Entry(id: string, timestamp: Timestamp, text: string)

  /** The closed set of reflection categories; only `Lexical` is ever produced. */
  datatype ReflectionKind = Lexical | Rhythm | Recurrence

  /** A generated reflection: a few questions derived from the entries. */
  datatype Reflection = Reflection(
    id: string,
    generatedAt: Timestamp,
    patterns: seq<string>,
    kind: ReflectionKind)

  /** Number of entries that unlocks lexical reflections. */
  const LEXICAL_THRESHOLD: nat := 30

  /** The seven coarse ages an entry can be shown under, youngest first. */
  datatype Label = JustNow | Today | Yesterday | ThisWeek | Earlier | SomeTimeAgo | LongTimeAgo

  /** The text shown for each label. */
  function LabelText(l: Label): string
  {
    match l
    case JustNow => "Just now"
    case Today => "Today"
    case Yesterday => "Yesterday"
    case ThisWeek => "This week"
    case Earlier => "Earlier"
    case SomeTimeAgo => "Some time ago"
    case LongTimeAgo => "A long time ago"
  }

  /** Position of a label in the threshold order, 0 for "Just now" to 6 for "A long time ago". */
  function Rank(l: Label): (r: nat)
    ensures r <= 6
  {
    match l
    case JustNow => 0
    case Today => 1
    case Yesterday => 2
    case ThisWeek => 3
    case Earlier => 4
    case SomeTimeAgo => 5
    case LongTimeAgo => 6
  }

  /**
   * Comparing the label texts, as the feed does, is the same as comparing the
   * labels: no two labels share a text.
   */
  lemma LabelTextIsInjective(a: Label, b: Label)
    ensures LabelText(a) == LabelText(b) <==> a == b
  {
  }
}
