/**
 * `MFTConfig` of libmft/api.py: which attribute types an entry loads, and the switches
 * that steer how an entry is decoded. The attribute type codes are those of NTFS.
 */
module ApiConfig {
  import Headers

  // STANDARD_INFORMATION (0x10), FILE_NAME (0x30) and INDEX_ROOT (0x90) are in module Headers.
  const ATTRIBUTE_LIST: nat := 0x20
  const OBJECT_ID: nat := 0x40
  const SECURITY_DESCRIPTOR: nat := 0x50
  const VOLUME_NAME: nat := 0x60
  const VOLUME_INFORMATION: nat := 0x70
  const DATA: nat := 0x80
  const INDEX_ALLOCATION: nat := 0xA0
  const BITMAP: nat := 0xB0
  const REPARSE_POINT: nat := 0xC0
  const EA_INFORMATION: nat := 0xD0
  const EA: nat := 0xE0
  const LOGGED_TOOL_STREAM: nat := 0x100

  /** Every member of `AttrTypes`. */
  const ATTR_TYPES: set<nat> := {
    Headers.STANDARD_INFORMATION, ATTRIBUTE_LIST, Headers.FILE_NAME, OBJECT_ID, SECURITY_DESCRIPTOR,
    VOLUME_NAME, VOLUME_INFORMATION, DATA, Headers.INDEX_ROOT, INDEX_ALLOCATION, BITMAP,
    REPARSE_POINT, EA_INFORMATION, EA, LOGGED_TOOL_STREAM}

  class MftConfig {
    /** `_load_attrs`: the attribute types whose attributes an entry decodes and keeps. */
    var loadAttrs: set<nat>
    /** Size of an entry in bytes; 0 asks the MFT to detect it. */
    var entrySize: nat
    var applyFixupArray: bool
    var ignoreSignatureCheck: bool
    var createInitialInformation: bool
    var loadDataruns: bool

    /** The defaults: every attribute type loaded, every switch on, the size detected. */
    constructor()
      ensures loadAttrs == ATTR_TYPES && entrySize == 0
      ensures applyFixupArray && ignoreSignatureCheck && createInitialInformation && loadDataruns
    {
      loadAttrs := ATTR_TYPES;
      entrySize := 0;
      applyFixupArray := true;
      ignoreSignatureCheck := true;
      createInitialInformation := true;
      loadDataruns := true;
    }

    /** `_get_load_attr`, read by every `load_*` property. */
    predicate LoadAttr(attrType: nat)
      reads this
    {
      attrType in loadAttrs
    }

    /**
     * `_set_load_attr`, written by every `load_*` property: the type is added or
     * removed, and whether any other type is loaded does not change.
     */
    method SetLoadAttr(attrType: nat, load: bool)
      modifies this
      ensures LoadAttr(attrType) == load
      ensures forall t :: t != attrType ==> (t in loadAttrs <==> t in old(loadAttrs))
      ensures entrySize == old(entrySize) && applyFixupArray == old(applyFixupArray)
      ensures ignoreSignatureCheck == old(ignoreSignatureCheck)
      ensures createInitialInformation == old(createInitialInformation) && loadDataruns == old(loadDataruns)
    {
      if load {
        loadAttrs := loadAttrs + {attrType};
      } else if attrType in loadAttrs {
        loadAttrs := loadAttrs - {attrType};
      }
    }
  }
}
