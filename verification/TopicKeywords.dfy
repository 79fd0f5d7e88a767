/**
 * The Latin keywords of the fixed topic rules (feed/classify/classify.go). None of them touches
 * itself, so for today's rules the search is right about every text.
 */
module TopicKeywords {
  import opened Text
  import opened WordSearch

  datatype Topic =
    | Economy | Finance | Jobs | Opportunities | Tender | Migration | Health | Education
    | Security | Politics | Sports | Cricket | Technology | Ai | Crypto | Climate
    | Disasters | Humanitarian | Official | Culture | Media | Agriculture | Energy | Regional

  // ---------------------------------------------------------------------------------------
  // The table
  // ---------------------------------------------------------------------------------------

  predicate IsLower(c: char) {
    'a' <= c <= 'z' || '0' <= c <= '9'
  }

  predicate LowerAt(w: string, i: nat) {
    i < |w| ==> IsLower(w[i])
  }

  /** Only lower-case letters and digits from position i on, checked four at a time. */
  predicate LowerFrom(w: string, i: nat)
    decreases |w| - i
  {
    && LowerAt(w, i) && LowerAt(w, i + 1) && LowerAt(w, i + 2) && LowerAt(w, i + 3)
    && (i + 4 < |w| ==> LowerFrom(w, i + 4))
  }

  /** One word of lower-case letters and digits. */
  type Keyword = w: string | w != "" && LowerFrom(w, 0) witness "a"

  const ECONOMY_WORDS: seq<Keyword> :=
    ["economy", "economic", "bank", "afghani", "trade", "inflation", "currency", "market"]
  const FINANCE_WORDS: seq<Keyword> :=
    ["finance", "budget", "investment", "stocks", "banking", "remittance"]
  const JOBS_WORDS: seq<Keyword> :=
    ["job", "jobs", "vacancy", "recruitment", "hiring", "career"]
  const OPPORTUNITIES_WORDS: seq<Keyword> :=
    ["scholarship", "fellowship", "internship", "grant", "opportunity"]
  const TENDER_WORDS: seq<Keyword> :=
    ["tender", "procurement", "bid", "rfq", "rfp"]
  const MIGRATION_WORDS: seq<Keyword> :=
    ["deportation", "refugee", "migrant", "asylum", "repatriation", "visa"]
  const HEALTH_WORDS: seq<Keyword> :=
    ["health", "hospital", "disease", "vaccin", "outbreak", "clinic"]
  const EDUCATION_WORDS: seq<Keyword> :=
    ["education", "school", "university", "student", "exam"]
  const SECURITY_WORDS: seq<Keyword> :=
    ["security", "attack", "blast", "militant", "clash", "airstrike"]
  const POLITICS_WORDS: seq<Keyword> :=
    ["politics", "minister", "government", "parliament"]
  const SPORTS_WORDS: seq<Keyword> :=
    ["sport", "cricket", "football", "match", "olympic"]
  const CRICKET_WORDS: seq<Keyword> :=
    ["cricket", "odi", "t20", "batsman", "wicket"]
  const TECHNOLOGY_WORDS: seq<Keyword> :=
    ["technology", "software", "internet", "startup", "cyber", "telecom"]
  const AI_WORDS: seq<Keyword> :=
    ["openai", "chatgpt"]
  const CRYPTO_WORDS: seq<Keyword> :=
    ["crypto", "bitcoin", "ethereum", "blockchain", "stablecoin"]
  const CLIMATE_WORDS: seq<Keyword> :=
    ["climate", "drought", "flooding", "emissions"]
  const DISASTERS_WORDS: seq<Keyword> :=
    ["earthquake", "flood", "landslide", "disaster", "casualties"]
  const HUMANITARIAN_WORDS: seq<Keyword> :=
    ["humanitarian", "aid", "unicef", "wfp", "relief", "displaced"]
  const OFFICIAL_WORDS: seq<Keyword> :=
    ["ministry", "embassy", "directorate", "spokesperson"]
  const CULTURE_WORDS: seq<Keyword> :=
    ["culture", "film", "music", "art", "festival"]
  const MEDIA_WORDS: seq<Keyword> :=
    ["media", "journalist"]
  const AGRICULTURE_WORDS: seq<Keyword> :=
    ["agriculture", "wheat", "harvest", "farmer"]
  const ENERGY_WORDS: seq<Keyword> :=
    ["energy", "electricity", "oil", "gas", "mining"]
  const REGIONAL_WORDS: seq<Keyword> :=
    ["pakistan", "iran", "uzbekistan", "tajikistan", "turkmenistan", "china", "india"]

  /** The keywords of one word. */
  function Words(t: Topic): seq<Keyword> {
    match t
    case Economy => ECONOMY_WORDS
    case Finance => FINANCE_WORDS
    case Jobs => JOBS_WORDS
    case Opportunities => OPPORTUNITIES_WORDS
    case Tender => TENDER_WORDS
    case Migration => MIGRATION_WORDS
    case Health => HEALTH_WORDS
    case Education => EDUCATION_WORDS
    case Security => SECURITY_WORDS
    case Politics => POLITICS_WORDS
    case Sports => SPORTS_WORDS
    case Cricket => CRICKET_WORDS
    case Technology => TECHNOLOGY_WORDS
    case Ai => AI_WORDS
    case Crypto => CRYPTO_WORDS
    case Climate => CLIMATE_WORDS
    case Disasters => DISASTERS_WORDS
    case Humanitarian => HUMANITARIAN_WORDS
    case Official => OFFICIAL_WORDS
    case Culture => CULTURE_WORDS
    case Media => MEDIA_WORDS
    case Agriculture => AGRICULTURE_WORDS
    case Energy => ENERGY_WORDS
    case Regional => REGIONAL_WORDS
  }

  /** Keywords with a blank in them: two words, three words, or one word behind a blank. */
  datatype Phrase = Two(a: Keyword, b: Keyword) | Three(a: Keyword, b: Keyword, c: Keyword) | AfterBlank(a: Keyword)

  function Spell(p: Phrase): string {
    match p
    case Two(a, b) => a + " " + b
    case Three(a, b, c) => a + " " + b + " " + c
    case AfterBlank(a) => " " + a
  }

  /** The later words do not start like the first one. */
  predicate Apart(p: Phrase) {
    match p
    case Two(a, b) => a[0] != b[0]
    case Three(a, b, c) => a[0] != c[0] && (a[0] != b[0] || (|a| > 2 && |b| > 2 && a[2] != b[2]))
    case AfterBlank(_) => true
  }

  type ApartPhrase = p: Phrase | Apart(p) witness AfterBlank("a")

  const TRAINING: seq<ApartPhrase> := [Two("training", "program")]
  const INTEREST: seq<ApartPhrase> := [Three("expression", "of", "interest")]
  const CABINET: seq<ApartPhrase> := [Two("official", "said"), Two("taliban", "cabinet")]
  const MATCHES: seq<ApartPhrase> := [Two("test", "match"), Two("afghanistan", "cricket")]
  const LEARNING: seq<ApartPhrase> := [Two("artificial", "intelligence"), Two("machine", "learning")]
  const MODELS: seq<ApartPhrase> := [Three("large", "language", "model"), AfterBlank("neural")]
  const HACKS: seq<ApartPhrase> := [Two("exchange", "hack")]
  const RESCUE: seq<ApartPhrase> := [Two("rescue", "operation")]
  const FREEDOM: seq<ApartPhrase> := [Two("press", "freedom")]
  const CENTRAL_ASIA: seq<ApartPhrase> := [Two("central", "asia")]

  /** The phrases of a rule. */
  function Phrases(t: Topic): seq<ApartPhrase> {
    match t
    case Opportunities => TRAINING
    case Tender => INTEREST
    case Politics => CABINET
    case Cricket => MATCHES
    case Ai => LEARNING + MODELS
    case Crypto => HACKS
    case Disasters => RESCUE
    case Media => FREEDOM
    case Regional => CENTRAL_ASIA
    case _ => []
  }

  /** The Latin keywords of a rule. */
  ghost predicate InRule(t: Topic, k: string) {
    k in Words(t) || exists p :: p in Phrases(t) && k == Spell(p)
  }

  // ---------------------------------------------------------------------------------------
  // One word
  // ---------------------------------------------------------------------------------------

  predicate AllLower(w: string) {
    forall i | 0 <= i < |w| :: IsLower(w[i])
  }

  lemma {:induction false} LowerOnwards(w: string, i: nat)
    requires LowerFrom(w, i)
    ensures forall k | i <= k < |w| :: IsLower(w[k])
    decreases |w| - i
  {
    if i + 4 < |w| {
      LowerOnwards(w, i + 4);
    }
    forall k | i <= k < |w| && k < i + 4
      ensures IsLower(w[k])
    {
      assert k == i || k == i + 1 || k == i + 2 || k == i + 3;
    }
  }

  lemma KeywordIsLower(k: Keyword)
    ensures AllLower(k)
  {
    LowerOnwards(k, 0);
  }

  lemma LowerIsPlain(w: string)
    requires AllLower(w)
    ensures Plain(w) && Lower(w) == w
  {
    forall i | 0 <= i < |w|
      ensures IsWordChar(w[i]) && LowerChar(w[i]) == w[i]
    {
      assert IsLower(w[i]);
    }
  }

  // ---------------------------------------------------------------------------------------
  // Words with blanks between them
  // ---------------------------------------------------------------------------------------

  /** A keyword that is lower case and does not touch itself. */
  ghost predicate Safe(k: string) {
    k != "" && Lower(k) == k && !TouchesItself(k)
  }

  lemma LowerOfParts(a: string, b: string)
    requires Lower(a) == a && Lower(b) == b
    ensures Lower(a + " " + b) == a + " " + b
  {
    var w := a + " " + b;
    forall i | 0 <= i < |w|
      ensures LowerChar(w[i]) == w[i]
    {
      assert i < |a| ==> Lower(a)[i] == a[i];
      assert i > |a| ==> w[i] == b[i - |a| - 1] && Lower(b)[i - |a| - 1] == b[i - |a| - 1];
    }
  }

  /** Where the text differs from its own beginning, no later copy can start. */
  lemma DiffersAt(w: string, d: nat, x: nat)
    requires 0 < d && d + x < |w| && w[d + x] != w[x]
    ensures !Touches(w, d)
  {
    assert w[d..][x] == w[d + x] && w[..|w| - d][x] == w[x];
  }

  /** Two words, or one behind a blank: a later copy could only start at the second word. */
  lemma TwoWords(k: string, a: string, b: string)
    requires k == a + " " + b && AllLower(a) && AllLower(b) && b != "" && (a == "" || a[0] != b[0])
    ensures Safe(k)
  {
    LowerIsPlain(a);
    LowerIsPlain(b);
    LowerOfParts(a, b);
    forall d | 0 < d < |k|
      ensures !Touches(k, d)
    {
      if d == |a| + 1 {
        assert IsLower(b[0]);
        DiffersAt(k, d, 0);
      } else {
        assert IsWordChar(k[d - 1]);
      }
    }
  }

  /** Three words: the copy could start at the second, where it differs at x, or at the third. */
  lemma ThreeWords(k: string, a: string, b: string, c: string, x: nat)
    requires k == a + " " + b + " " + c && AllLower(a) && AllLower(b) && AllLower(c) && a != "" && c != ""
    requires x < |a| && x < |b| && a[x] != b[x] && a[0] != c[0]
    ensures Safe(k)
  {
    LowerIsPlain(a);
    LowerIsPlain(b);
    LowerIsPlain(c);
    LowerOfParts(a, b);
    LowerOfParts(a + " " + b, c);
    forall d | 0 < d < |k|
      ensures !Touches(k, d)
    {
      if d == |a| + 1 {
        DiffersAt(k, d, x);
      } else if d == |a| + |b| + 2 {
        DiffersAt(k, d, 0);
      } else {
        assert IsWordChar(k[d - 1]);
      }
    }
  }

  lemma PhraseIsSafe(p: ApartPhrase)
    ensures Safe(Spell(p))
  {
    KeywordIsLower(p.a);
    match p
    case Two(a, b) =>
      KeywordIsLower(b);
      TwoWords(Spell(p), a, b);
    case Three(a, b, c) =>
      KeywordIsLower(b);
      KeywordIsLower(c);
      ThreeWords(Spell(p), a, b, c, if a[0] != b[0] then 0 else 2);
    case AfterBlank(a) =>
      assert Spell(p) == "" + " " + a;
      TwoWords(Spell(p), "", a);
  }

  /** For every Latin keyword of the rules, the search finds exactly the whole words, in every text. */
  lemma RulesAreExact(t: Topic, k: string, text: string)
    requires InRule(t, k)
    ensures k != "" && !TouchesItself(Lower(k))
    ensures Scan(Lower(text), Lower(k), 0) <==> HasWholeWord(text, k)
  {
    if k in Words(t) {
      KeywordIsLower(k);
      LowerIsPlain(k);
      PlainKeywordsAreExact(k, text);
    } else {
      var p :| p in Phrases(t) && k == Spell(p);
      PhraseIsSafe(p);
      NoTouchIsExact(k, text);
    }
  }
}
