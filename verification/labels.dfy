/** The classifier's fixed index-to-label table and the canonical form that
    menu names are brought to before they are compared with a label. */
module Labels {
  import opened Options

  /** Number of indices the label table maps: 0 through 9. */
  const ClassCount: nat := 10

  /** The CNN label table: raw class index to canonical dish label.
      Indices outside the table yield None, and the pipeline drops them. */
  function LabelOf(index: int): (r: Option<string>)
    ensures r.Some? <==> 0 <= index < ClassCount
    ensures r.Some? ==> |r.value| > 0 && IsCanonical(r.value)
  {
    match index
    case 0 => Some("CAHUKHO")
    case 1 => Some("CANHCAI")
    case 2 => Some("CANHCHUA")
    case 3 => Some("COM")
    case 4 => Some("DAUHUSOTCA")
    case 5 => Some("GACHIEN")
    case 6 => Some("RAUMUONGXAO")
    case 7 => Some("THITKHOTIEU")
    case 8 => Some("THITKHOTRUNG")
    case 9 => Some("TRUNGCHIEN")
    case _ => None
  }

  /** Distinct indices carry distinct labels, so deduplicating labels is the
      same as deduplicating recognised classes. */
  lemma LabelOfInjective(i: int, j: int)
    requires LabelOf(i).Some? && LabelOf(i) == LabelOf(j)
    ensures i == j
  {
  }

  predicate IsLowerAscii(c: char) {
    'a' <= c <= 'z'
  }

  /** A canonical string has no space and no lower-case ASCII letter. */
  predicate IsCanonical(s: string) {
    forall i :: 0 <= i < |s| ==> s[i] != ' ' && !IsLowerAscii(s[i])
  }

  /** One character of `replace(' ', '_').upper()`, ASCII letters only. */
  function CanonicalChar(c: char): char {
    if c == ' ' then '_'
    else if IsLowerAscii(c) then (c as int - 32) as char
    else c
  }

  /** A menu name brought to label form (`replace(' ', '_').upper()`). */
  function Canonical(s: string): (r: string)
    ensures |r| == |s|
  {
    if |s| == 0 then []
    else [CanonicalChar(s[0])] + Canonical(s[1..])
  }

  /** What canonicalising does to each character: spaces become
      underscores, lower-case ASCII letters become upper-case, every other
      character is kept; so the result is canonical. */
  lemma {:induction false} CanonicalShape(s: string)
    ensures IsCanonical(Canonical(s))
    ensures forall i :: 0 <= i < |s| && s[i] == ' ' ==> Canonical(s)[i] == '_'
    ensures forall i :: 0 <= i < |s| && IsLowerAscii(s[i]) ==>
              Canonical(s)[i] as int == s[i] as int - 32
    ensures forall i :: 0 <= i < |s| && s[i] != ' ' && !IsLowerAscii(s[i]) ==>
              Canonical(s)[i] == s[i]
    decreases |s|
  {
    if |s| > 0 {
      CanonicalShape(s[1..]);
      var r := Canonical(s);
      assert forall i :: 1 <= i < |s| ==> r[i] == Canonical(s[1..])[i - 1] && s[i] == s[1..][i - 1];
    }
  }

  /** Canonical strings are left alone, so every label is its own canonical
      form and canonicalising twice is the same as once. */
  lemma {:induction false} CanonicalFixesCanonical(s: string)
    requires IsCanonical(s)
    ensures Canonical(s) == s
  {
    CanonicalShape(s);
    var r := Canonical(s);
    forall i | 0 <= i < |s|
      ensures r[i] == s[i]
    {
    }
  }

  /** A string is the canonical form of `s` when it agrees with it
      character by character under `CanonicalChar`. */
  lemma CanonicalByChars(s: string, t: string)
    requires |t| == |s|
    requires forall i :: 0 <= i < |s| ==> t[i] == CanonicalChar(s[i])
    ensures Canonical(s) == t
  {
    CanonicalShape(s);
    var r := Canonical(s);
    forall i | 0 <= i < |s|
      ensures r[i] == t[i]
    {
    }
  }

  lemma {:induction false} CanonicalIdempotent(s: string)
    ensures Canonical(Canonical(s)) == Canonical(s)
  {
    CanonicalShape(s);
    CanonicalFixesCanonical(Canonical(s));
  }
}
