/** The three action codes shared by the REST server and the REST client.
    Their numeric values come from a module that is not part of this model,
    so they are a parameter: every property holds for any choice of codes,
    and the ones that need it assume the codes are pairwise distinct. */
module Actions {

  datatype ActionCodes = ActionCodes(valvePosition: int, toggleBlind: int, setBlind: int) {

    predicate Distinct() {
      valvePosition != toggleBlind && valvePosition != setBlind && toggleBlind != setBlind
    }

    /** Membership in the list of supported actions. */
    predicate Supported(action: int) {
      action in [valvePosition, toggleBlind, setBlind]
    }
  }

  /** The value domains both sides enforce: a byte for a valve or blind
      position, a single bit for a toggle. */
  predicate InByteRange(v: int) {
    0 <= v <= 255
  }

  predicate InBitRange(v: int) {
    v == 0 || v == 1
  }
}
