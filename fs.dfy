/**
 * The flag logic of the file-system wrapper: file attribute words, the
 * `MoveFileExW` flags of `MoveOptions`, and the access, share-mode and
 * creation-disposition words `OpenOptions::open` hands to `CreateFileW`.
 */
module Fs {
  import opened Bits

  // Attribute bits (FILE_ATTRIBUTE_*).
  const AttrReadonly: bv32 := 0x1
  const AttrHidden: bv32 := 0x2
  const AttrSystem: bv32 := 0x4
  const AttrDirectory: bv32 := 0x10
  const AttrArchive: bv32 := 0x20
  const AttrNormal: bv32 := 0x80
  const AttrTemporary: bv32 := 0x100

  /** A file attribute word. */
  datatype FileAttributes = FileAttributes(bits: bv32)
  {
    predicate IsDirectory() { bits & AttrDirectory != 0 }
    predicate IsReadonly() { bits & AttrReadonly != 0 }
    predicate IsHidden() { bits & AttrHidden != 0 }
    predicate IsSystem() { bits & AttrSystem != 0 }

    /** `with`: the union of both attribute sets. */
    function With(other: FileAttributes): (r: FileAttributes)
      ensures r.bits & bits == bits && r.bits & other.bits == other.bits
    {
      OrKeeps(bits, other.bits);
      FileAttributes(bits | other.bits)
    }
  }

  /** ... and sets no attribute that neither part has. */
  lemma WithAddsNothing(a: FileAttributes, b: FileAttributes, m: bv32)
    requires m & a.bits == 0 && m & b.bits == 0
    ensures a.With(b).bits & m == 0
  {
    OrAddsNothing(a.bits, b.bits, m);
  }

  const Normal := FileAttributes(AttrNormal)
  const Readonly := FileAttributes(AttrReadonly)
  const Hidden := FileAttributes(AttrHidden)
  const System := FileAttributes(AttrSystem)
  const Directory := FileAttributes(AttrDirectory)
  const Archive := FileAttributes(AttrArchive)
  const Temporary := FileAttributes(AttrTemporary)

  /** A combined attribute word has each property iff one of its parts has it. */
  lemma WithPredicates(a: FileAttributes, b: FileAttributes)
    ensures a.With(b).IsDirectory() <==> a.IsDirectory() || b.IsDirectory()
    ensures a.With(b).IsReadonly() <==> a.IsReadonly() || b.IsReadonly()
    ensures a.With(b).IsHidden() <==> a.IsHidden() || b.IsHidden()
    ensures a.With(b).IsSystem() <==> a.IsSystem() || b.IsSystem()
  {
    OrTestsEither(a.bits, b.bits, AttrDirectory);
    OrTestsEither(a.bits, b.bits, AttrReadonly);
    OrTestsEither(a.bits, b.bits, AttrHidden);
    OrTestsEither(a.bits, b.bits, AttrSystem);
  }

  lemma OrTestsEither(a: bv32, b: bv32, m: bv32)
    ensures (a | b) & m != 0 <==> a & m != 0 || b & m != 0
  {
    assert (a | b) & m == (a & m) | (b & m);
  }

  /** Read-only combined with hidden is read-only and hidden, and not a directory. */
  lemma ReadonlyHidden()
    ensures Readonly.With(Hidden).IsReadonly()
    ensures Readonly.With(Hidden).IsHidden()
    ensures !Readonly.With(Hidden).IsDirectory()
  {
    WithPredicates(Readonly, Hidden);
  }

  // ------------------------------------------------------------------
  // MoveOptions

  // MOVEFILE_* flags.
  const MoveReplaceExisting: bv32 := 0x1
  const MoveCopyAllowed: bv32 := 0x2
  const MoveWriteThrough: bv32 := 0x8

  /** The options of `move_file_with_options`; `MoveOptions::new` and
      `default` are all false. */
  datatype MoveOptions = MoveOptions(replaceExisting: bool, copyAllowed: bool, writeThrough: bool)
  {
    /** `replace`. */
    function Replace(): (o: MoveOptions)
      ensures o.replaceExisting && o.(replaceExisting := replaceExisting) == this
    {
      this.(replaceExisting := true)
    }

    /** `allow_copy`. */
    function AllowCopy(): (o: MoveOptions)
      ensures o.copyAllowed && o.(copyAllowed := copyAllowed) == this
    {
      this.(copyAllowed := true)
    }

    /** `write_through`. */
    function WriteThrough(): (o: MoveOptions)
      ensures o.writeThrough && o.(writeThrough := writeThrough) == this
    {
      this.(writeThrough := true)
    }

    /** `to_flags`: one bit per enabled option and nothing else. */
    method ToFlags() returns (flags: bv32)
      ensures flags & MoveReplaceExisting != 0 <==> replaceExisting
      ensures flags & MoveCopyAllowed != 0 <==> copyAllowed
      ensures flags & MoveWriteThrough != 0 <==> writeThrough
      ensures flags & !(MoveReplaceExisting | MoveCopyAllowed | MoveWriteThrough) == 0
    {
      flags := 0;
      if replaceExisting {
        flags := flags | MoveReplaceExisting;
      }
      if copyAllowed {
        flags := flags | MoveCopyAllowed;
      }
      if writeThrough {
        flags := flags | MoveWriteThrough;
      }
    }
  }

  const DefaultMoveOptions := MoveOptions(false, false, false)

  /** The default options give no flags at all. */
  method DefaultMoveFlags() returns (flags: bv32)
    ensures flags == 0
  {
    flags := DefaultMoveOptions.ToFlags();
    NoBitsSet(flags, MoveReplaceExisting, MoveCopyAllowed, MoveWriteThrough);
  }

  /** A word with none of three bits set and nothing outside them is zero. */
  lemma NoBitsSet(w: bv32, a: bv32, b: bv32, c: bv32)
    requires w & a == 0 && w & b == 0 && w & c == 0 && w & !(a | b | c) == 0
    ensures w == 0
  {
  }

  // ------------------------------------------------------------------
  // OpenOptions

  // Access rights, share modes and creation dispositions.
  const FileGenericRead: bv32 := 0x0012_0089
  const FileGenericWrite: bv32 := 0x0012_0116
  const FileShareRead: bv32 := 0x1
  const FileShareWrite: bv32 := 0x2
  const CreateNew: bv32 := 1
  const CreateAlways: bv32 := 2
  const OpenExisting: bv32 := 3
  const OpenAlways: bv32 := 4

  /** The options of `OpenOptions`. */
  datatype OpenOptions = OpenOptions(
    read: bool, write: bool, create: bool, createNew: bool, truncate: bool,
    shareRead: bool, shareWrite: bool, attributes: FileAttributes)
  {
    /** `read`. */
    function SetRead(b: bool): (o: OpenOptions)
      ensures o.read == b && o.(read := read) == this
    {
      this.(read := b)
    }

    /** `write`. */
    function SetWrite(b: bool): (o: OpenOptions)
      ensures o.write == b && o.(write := write) == this
    {
      this.(write := b)
    }

    /** `create`. */
    function SetCreate(b: bool): (o: OpenOptions)
      ensures o.create == b && o.(create := create) == this
    {
      this.(create := b)
    }

    /** `create_new`. */
    function SetCreateNew(b: bool): (o: OpenOptions)
      ensures o.createNew == b && o.(createNew := createNew) == this
    {
      this.(createNew := b)
    }

    /** `truncate`. */
    function SetTruncate(b: bool): (o: OpenOptions)
      ensures o.truncate == b && o.(truncate := truncate) == this
    {
      this.(truncate := b)
    }

    /** `share_read`. */
    function SetShareRead(b: bool): (o: OpenOptions)
      ensures o.shareRead == b && o.(shareRead := shareRead) == this
    {
      this.(shareRead := b)
    }

    /** `share_write`. */
    function SetShareWrite(b: bool): (o: OpenOptions)
      ensures o.shareWrite == b && o.(shareWrite := shareWrite) == this
    {
      this.(shareWrite := b)
    }

    /** `attributes`. */
    function SetAttributes(a: FileAttributes): (o: OpenOptions)
      ensures o.attributes == a && o.(attributes := attributes) == this
    {
      this.(attributes := a)
    }

    /** `get_access`: FILE_GENERIC_READ for `read`, FILE_GENERIC_WRITE for `write`. */
    method GetAccess() returns (access: bv32)
      ensures access & FileGenericRead == FileGenericRead <==> read
      ensures access & FileGenericWrite == FileGenericWrite <==> write
      ensures access & !(FileGenericRead | FileGenericWrite) == 0
      ensures access == 0 <==> !read && !write
      ensures access == (if read then FileGenericRead else 0) | (if write then FileGenericWrite else 0)
    {
      access := 0;
      if read {
        access := access | FileGenericRead;
      }
      if write {
        access := access | FileGenericWrite;
      }
    }

    /** `get_share_mode`: FILE_SHARE_READ and FILE_SHARE_WRITE as requested. */
    method GetShareMode() returns (mode: bv32)
      ensures mode & FileShareRead != 0 <==> shareRead
      ensures mode & FileShareWrite != 0 <==> shareWrite
      ensures mode & !(FileShareRead | FileShareWrite) == 0
    {
      mode := 0;
      if shareRead {
        mode := mode | FileShareRead;
      }
      if shareWrite {
        mode := mode | FileShareWrite;
      }
    }

    /** `get_creation_disposition`: `create_new` wins, `truncate` counts only
        together with `create`. */
    function CreationDisposition(): (d: bv32)
      ensures d == CreateNew <==> createNew
      ensures d == CreateAlways <==> !createNew && truncate && create
      ensures d == OpenAlways <==> !createNew && !truncate && create
      ensures d == OpenExisting <==> !createNew && !create
    {
      if createNew then CreateNew
      else if truncate && create then CreateAlways
      else if create then OpenAlways
      else OpenExisting
    }
  }

  /** `OpenOptions::new` and `default`: nothing requested, sharing for reading
      only, normal attributes. */
  function NewOpenOptions(): (o: OpenOptions)
    ensures o.shareRead && !o.shareWrite
    ensures !o.read && !o.write && !o.create && !o.createNew && !o.truncate
    ensures o.attributes == Normal
  {
    OpenOptions(false, false, false, false, false, true, false, Normal)
  }

  /** With the defaults, other processes may read but not write, and the file
      must exist already. */
  method DefaultOpen() returns (share: bv32, access: bv32, disposition: bv32)
    ensures share == FileShareRead && access == 0 && disposition == OpenExisting
  {
    var o := NewOpenOptions();
    share := o.GetShareMode();
    ShareReadOnly(share);
    access := o.GetAccess();
    disposition := o.CreationDisposition();
  }

  /** A share mode with the read bit, without the write bit and with nothing
      else is exactly FILE_SHARE_READ. */
  lemma ShareReadOnly(w: bv32)
    requires w & FileShareRead != 0 && w & FileShareWrite == 0
    requires w & !(FileShareRead | FileShareWrite) == 0
    ensures w == FileShareRead
  {
  }

  /** Opening for reading and writing, creating the file when missing. */
  method ReadWriteCreate() returns (access: bv32, disposition: bv32)
    ensures access & FileGenericRead == FileGenericRead
    ensures access & FileGenericWrite == FileGenericWrite
    ensures disposition == OpenAlways
  {
    var o := NewOpenOptions().SetRead(true).SetWrite(true).SetCreate(true);
    access := o.GetAccess();
    disposition := o.CreationDisposition();
  }

  /** Truncation without `create` does not change the disposition. */
  lemma TruncateNeedsCreate(o: OpenOptions)
    requires !o.create
    ensures o.(truncate := true).CreationDisposition() == o.(truncate := false).CreationDisposition()
  {
  }
}
