/** The token-type legend of the proxy-list highlighter, the position-to-category
    table, and the encoders that turn a category name or a modifier list into the
    integer codes the editor consumes. */
module Legend {

  /** The five token types a field of a proxy-list line can be labelled with. */
  datatype Category = Delimiter | Port | Value | Username | Password

  /** The token-type legend, in the order the editor numbers it. */
  const TokenTypesLegend: seq<string> := ["delimiter", "port", "value", "username", "password"]

  /** The token-modifier legend: no modifiers are declared. */
  const TokenModifiersLegend: seq<string> := []

  /** The name under which a category appears in the legend. */
  function Name(c: Category): (s: string)
    ensures s in TokenTypesLegend
  {
    match c
    case Delimiter => "delimiter"
    case Port => "port"
    case Value => "value"
    case Username => "username"
    case Password => "password"
  }

  /** No name occurs twice in `names`. */
  predicate Distinct(names: seq<string>)
  {
    forall p, q :: 0 <= p < q < |names| ==> names[p] != names[q]
  }

  lemma LegendDistinct()
    ensures Distinct(TokenTypesLegend)
  {
  }

  /** The name-to-index table filled from a legend one position at a time, in order,
      so that a later occurrence of a name overwrites an earlier one. */
  function IndexTable(names: seq<string>): (table: map<string, nat>)
    ensures forall name :: name in table <==> name in names
    ensures forall name :: name in table ==> table[name] < |names| && names[table[name]] == name
  {
    if names == [] then map[]
    else IndexTable(names[..|names| - 1])[names[|names| - 1] := |names| - 1]
  }

  /** A later occurrence of a name overwrites an earlier one: the table holds the
      last position at which the name occurs. */
  lemma {:induction false} IndexTableLastOccurrence(names: seq<string>, name: string, p: nat)
    requires name in IndexTable(names) && IndexTable(names)[name] < p < |names|
    ensures names[p] != name
  {
    var n := |names|;
    var init := names[..n - 1];
    if name != names[n - 1] && p < n - 1 {
      IndexTableLastOccurrence(init, name, p);
      assert init[p] == names[p];
    }
  }

  /** In a legend without duplicates every name is mapped to its own position. */
  lemma {:induction false} IndexTableOfDistinct(names: seq<string>, k: nat)
    requires Distinct(names) && k < |names|
    ensures names[k] in IndexTable(names) && IndexTable(names)[names[k]] == k
  {
    var table := IndexTable(names);
    var i := table[names[k]];
    assert names[i] == names[k];
  }

  /** The code of a token-type name: its position in the legend, or 0 for a name
      the legend does not hold. */
  function EncodeTokenType(tokenType: string): (code: nat)
    ensures code < |TokenTypesLegend|
    ensures tokenType in TokenTypesLegend ==> TokenTypesLegend[code] == tokenType
    ensures tokenType !in TokenTypesLegend ==> code == 0
  {
    var table := IndexTable(TokenTypesLegend);
    if tokenType in table then table[tokenType] else 0
  }

  /** The modifier table filled from the empty modifier legend has no entries. */
  lemma ModifierTableEmpty()
    ensures IndexTable(TokenModifiersLegend) == map[]
  {
  }

  /** The code of a modifier list: always 0, whatever the list holds, since the
      modifier legend is empty. */
  function EncodeTokenModifiers(tokenModifiers: seq<string>): (code: nat)
    ensures code == 0
  {
    0
  }

  /** The category of the field at `partIndex` within its line: the first five
      positions follow the legend, every later position falls back to delimiter. */
  function GetTokenForPart(partIndex: nat): (c: Category)
    ensures partIndex < |TokenTypesLegend| ==> Name(c) == TokenTypesLegend[partIndex]
    ensures partIndex >= |TokenTypesLegend| ==> c == Delimiter
  {
    match partIndex
    case 0 => Delimiter
    case 1 => Port
    case 2 => Value
    case 3 => Username
    case 4 => Password
    case _ => Delimiter
  }

  /** Encoding a category's name yields its position in the legend. */
  lemma EncodeNameIsLegendIndex(c: Category)
    ensures EncodeTokenType(Name(c)) < |TokenTypesLegend|
    ensures TokenTypesLegend[EncodeTokenType(Name(c))] == Name(c)
    ensures forall k :: 0 <= k < |TokenTypesLegend| && TokenTypesLegend[k] == Name(c) ==>
              EncodeTokenType(Name(c)) == k
  {
    LegendDistinct();
  }

  /** The encoded type of the field at position j is j for the first five
      positions and 0 for every later one. */
  lemma EncodedTypeOfPart(j: nat)
    ensures EncodeTokenType(Name(GetTokenForPart(j))) == if j < |TokenTypesLegend| then j else 0
  {
    LegendDistinct();
    var c := GetTokenForPart(j);
    if j < |TokenTypesLegend| {
      assert TokenTypesLegend[j] == Name(c);
    } else {
      assert TokenTypesLegend[0] == Name(c);
    }
  }
}
