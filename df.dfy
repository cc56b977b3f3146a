/**
 * The DF method of hrex/methods/df.py: a word is taken to be broader than
 * another when its stored document frequency is higher. The comparison itself is
 * `FrequencyRelations.CompareAll`; this class holds the dictionary and the
 * relation list the method appends to.
 */
module DocumentFrequency {
  import opened PyBuiltins
  import opened Dictionaries
  import opened PairScan
  import opened FrequencyRelations

  class DF {
    /** `self.dwords`: word -> (id, df). */
    const dwords: DictWords
    /** `self.rels`: set to [] by the constructor only. */
    var rels: seq<Rel>

    constructor (dwords: DictWords)
      ensures this.dwords == dwords && rels == []
    {
      this.dwords := dwords;
      rels := [];
    }

    /** `identifyRelations()`, with `keys` the order in which Python lists
        `self.dwords.keys()`. Appends to the relations of earlier calls. */
    method IdentifyRelations(keys: seq<string>)
      requires Enumerates(keys, dwords.items.Keys)
      modifies this
      ensures rels == old(rels) + Relations(keys, dwords.items)
    {
      var found := CompareAll(keys, dwords.items);
      rels := rels + found;
    }
  }
}
