/** Option and Result for the error paths of the node: every place where the
    Python raises (KeyError, struct.error, TypeError, AttributeError, or an
    explicit Exception) becomes an Err value carrying what went wrong. */
module Wrappers {

  datatype Option<+T> = None | Some(value: T)

  /** What the Python raises, by cause. */
  datatype Error =
    | UnknownWidth(width: int)          // struct_length has no entry for the width (KeyError)
    | OutOfRange(value: int)            // struct.pack refuses the value (struct.error)
    | BadAddress                        // the host text is not four decimal octets (ValueError / struct.error)
    | ShortBuffer(needed: nat)          // struct.unpack given fewer bytes than its format
    | NegativeShift                     // a marker reaches past the end of its field (ValueError)
    | UnknownType(tag: string)          // no unpack_<tag> decoder (AttributeError)
    | NoMarker(name: string)            // "no description for marker ..."
    | NoPackage(name: string)           // "no protocol with the name ..."
    | NoStructure                       // a package without a structure list (KeyError / TypeError)
    | BadDefine                         // a one-name define spliced with a list (TypeError)
    | NoPredicate(name: string)         // no define_<name> (AttributeError)
    | NoResponse                        // a package without a response name (TypeError)
    | NoResponder(name: string)         // no do_<name> (AttributeError)
    | NoBuilder                         // no get_<field> builder (AttributeError)
    | NotInPool                         // a pool operation on an absent connection (TypeError / AttributeError)

  datatype Result<+T> = Ok(value: T) | Err(error: Error)
}
