/**
 What a handler answers with: at most one data container, then one response. Response
 codes are those of section 11 of PIMA 15740:2000.
 */
module Replies {
  import opened Bytes

  const RC_OK: u16 := 0x2001
  const RC_GENERAL_ERROR: u16 := 0x2002
  const RC_SESSION_NOT_OPEN: u16 := 0x2003
  const RC_OPERATION_NOT_SUPPORTED: u16 := 0x2005
  const RC_INVALID_STORAGE_ID: u16 := 0x2008
  const RC_INVALID_OBJECT_HANDLE: u16 := 0x2009
  const RC_DEVICE_PROP_NOT_SUPPORTED: u16 := 0x200A
  const RC_INVALID_OBJECT_FORMAT_CODE: u16 := 0x200B
  const RC_OBJECT_WRITE_PROTECTED: u16 := 0x200D
  const RC_ACCESS_DENIED: u16 := 0x200F
  const RC_NO_THUMBNAIL_PRESENT: u16 := 0x2010
  const RC_STORE_NOT_AVAILABLE: u16 := 0x2013
  const RC_SPEC_BY_FORMAT_UNSUPPORTED: u16 := 0x2014
  const RC_INVALID_PARENT_OBJECT: u16 := 0x201A
  const RC_INVALID_PARAMETER: u16 := 0x201D
  const RC_SESSION_ALREADY_OPENED: u16 := 0x201E

  const MAIN_STORAGE_ID: u32 := 0x00010001

  datatype Reply = Reply(data: Option<seq<byte>>, rc: u16, params: seq<u32>)

  function Just(rc: u16): Reply
  {
    Reply(None, rc, [])
  }
}
