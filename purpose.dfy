/**
 * The `Purpose` enumeration of data_generator.py: which split (and so which
 * directory under the dataset) is read.
 */
module Purposes {

  datatype Purpose = Train | Test | Val | Plot
  {
    /** The enumeration value, used verbatim as a directory name. */
    function Value(): string
    {
      match this
      case Train => "train"
      case Test => "test"
      case Val => "plot"
      case Plot => "plot"
    }

    /**
     * Python's Enum makes a member declared with an existing value an alias of
     * the first member with that value: `Purpose.PLOT is Purpose.VAL`.
     */
    function Canonical(): Purpose
    {
      if this == Plot then Val else this
    }
  }

  /**
   * Two purposes name the same directory exactly when Python treats them as
   * one enum member; the only such distinct pair is VAL and PLOT.
   */
  lemma SameValueIffSameMember(p: Purpose, q: Purpose)
    ensures p.Value() == q.Value() <==> p.Canonical() == q.Canonical()
    ensures p.Value() == q.Value() <==> p == q || (p in {Val, Plot} && q in {Val, Plot})
  {
  }
}
