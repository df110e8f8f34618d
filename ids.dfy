/**
 * The `generate_id` helper of models.py and the id prefixes of the seven
 * tables. The random part is the text of a uuid4, passed in as a parameter.
 */
module Ids {
  import opened Wrappers

  const ImagePrefix := "IMG"
  const LinkPrefix := "IMGLNK"
  const ItineraryPrefix := "ITI"
  const MapPrefix := "MAP"
  const TagPrefix := "TAG"
  const DayPrefix := "ITIDY"
  const HotelPrefix := "HOTEL"

  predicate IsLowerHex(c: char) {
    '0' <= c <= '9' || 'a' <= c <= 'f'
  }

  predicate IsUpperHex(c: char) {
    '0' <= c <= '9' || 'A' <= c <= 'F'
  }

  /**
   * The text of a uuid4 as `str(uuid.uuid4())` writes it: 32 lower-case hex
   * digits in groups of 8-4-4-4-12, version digit 4, variant digit 8 to b.
   */
  predicate IsUuid4Text(u: string) {
    && |u| == 36
    && (forall i :: 0 <= i < 36 ==> if i == 8 || i == 13 || i == 18 || i == 23 then u[i] == '-' else IsLowerHex(u[i]))
    && u[14] == '4'
    && u[19] in "89ab"
  }

  function ToUpper(c: char): (d: char)
    ensures IsLowerHex(c) ==> IsUpperHex(d)
    ensures d == '-' <==> c == '-'
  {
    if 'a' <= c <= 'z' then (c as int - 32) as char else c
  }

  /** `str.upper()` on ASCII. */
  function Upper(s: string): (r: string)
    ensures |r| == |s|
    ensures forall i :: 0 <= i < |s| ==> r[i] == ToUpper(s[i])
  {
    if s == [] then [] else [ToUpper(s[0])] + Upper(s[1..])
  }

  /** `s.replace("-", "")`. */
  function RemoveHyphens(s: string): (r: string)
    ensures |r| <= |s|
    ensures forall i :: 0 <= i < |r| ==> r[i] != '-'
    ensures (forall i :: 0 <= i < |s| ==> s[i] != '-') ==> r == s
  {
    if s == [] then [] else (if s[0] == '-' then [] else [s[0]]) + RemoveHyphens(s[1..])
  }

  /** Python's `s[:n]`. */
  function Take(s: string, n: nat): (r: string)
    ensures |r| == if |s| <= n then |s| else n
  {
    if |s| <= n then s else s[..n]
  }

  /** The token after the prefix: the first eight hex digits of the uuid, upper-cased. */
  function IdToken(uuidText: string): (token: string)
    ensures |token| <= 8
    ensures forall i :: 0 <= i < |token| ==> token[i] != '-'
  {
    Upper(Take(RemoveHyphens(uuidText), 8))
  }

  /** `generate_id(prefix)`: the prefix, a hyphen, then the token. */
  function GenerateId(prefix: string, uuidText: string): (id: string)
    ensures |prefix| < |id| <= |prefix| + 9
    ensures id[..|prefix|] == prefix && id[|prefix|] == '-'
    ensures forall i :: |prefix| < i < |id| ==> id[i] != '-'
    ensures HasIdPrefix(prefix, id)
  {
    prefix + "-" + IdToken(uuidText)
  }

  /** `id` starts with `prefix` and a hyphen, as every id generated for that prefix does. */
  predicate HasIdPrefix(prefix: string, id: string) {
    |prefix| < |id| && id[..|prefix| + 1] == prefix + "-"
  }

  /** The position of the last `c` in `s`, if any. */
  function LastIndexOf(s: string, c: char): (r: Option<nat>)
    ensures r.Some? ==> r.value < |s| && s[r.value] == c && forall j :: r.value < j < |s| ==> s[j] != c
    ensures r.None? ==> forall j :: 0 <= j < |s| ==> s[j] != c
  {
    if s == [] then None
    else if s[|s| - 1] == c then Some(|s| - 1)
    else LastIndexOf(s[..|s| - 1], c)
  }

  /** Splits an id at its last hyphen into prefix and token. */
  function ParseId(id: string): (r: Option<(string, string)>)
    ensures r.Some? ==> id == r.value.0 + "-" + r.value.1
  {
    match LastIndexOf(id, '-')
    case None => None
    case Some(k) => Some((id[..k], id[k + 1..]))
  }

  /** Parsing recovers the prefix and the token of a generated id, for any prefix. */
  lemma ParseGeneratedId(prefix: string, uuidText: string)
    ensures ParseId(GenerateId(prefix, uuidText)) == Some((prefix, IdToken(uuidText)))
  {
    var id := GenerateId(prefix, uuidText);
    var k := LastIndexOf(id, '-');
    assert k == Some(|prefix|);
    assert id[|prefix| + 1..] == IdToken(uuidText);
  }

  /** Ids drawn for tables with different prefixes never collide. */
  lemma DistinctPrefixesGiveDistinctIds(p1: string, u1: string, p2: string, u2: string)
    requires p1 != p2
    ensures GenerateId(p1, u1) != GenerateId(p2, u2)
  {
    ParseGeneratedId(p1, u1);
    ParseGeneratedId(p2, u2);
  }

  lemma {:induction false} RemoveHyphensAppend(a: string, b: string)
    ensures RemoveHyphens(a + b) == RemoveHyphens(a) + RemoveHyphens(b)
  {
    if a != [] {
      RemoveHyphensAppend(a[1..], b);
      var head := if a[0] == '-' then [] else [a[0]];
      assert RemoveHyphens(a + b) == head + RemoveHyphens(a[1..] + b) by {
        assert (a + b)[0] == a[0] && (a + b)[1..] == a[1..] + b;
      }
      assert RemoveHyphens(a) == head + RemoveHyphens(a[1..]);
    } else {
      assert a + b == b;
    }
  }

  /**
   * For a real uuid4 text the id is the prefix, a hyphen and exactly eight
   * upper-case hex digits, the first group of the uuid: `|prefix| + 9` long.
   */
  lemma GeneratedIdShape(prefix: string, uuidText: string)
    requires IsUuid4Text(uuidText)
    ensures |GenerateId(prefix, uuidText)| == |prefix| + 9
    ensures IdToken(uuidText) == Upper(uuidText[..8])
    ensures forall i :: |prefix| < i < |prefix| + 9 ==> IsUpperHex(GenerateId(prefix, uuidText)[i])
  {
    var head, tail := uuidText[..8], uuidText[8..];
    assert uuidText == head + tail;
    RemoveHyphensAppend(head, tail);
    assert RemoveHyphens(head) == head;
    assert Take(RemoveHyphens(uuidText), 8) == head;
  }
}
