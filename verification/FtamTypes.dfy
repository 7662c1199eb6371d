/**
 What the parameters of the FTAM service are made of: file attributes,
 permissions, concurrency locks and passwords.  Bit masks are sets.
 */
module FtamTypes {

  datatype Attr =
    | Filename | Actions | Contents
    | Account | DateCreate | DateModify | DateRead | DateAttr
    | IdCreate | IdModify | IdRead | IdAttr | Availability | FileSize | FutureSize
    | Control | LegalQuals | PrivateUse

  const ALLATTRS := {Filename, Actions, Contents, Account, DateCreate, DateModify, DateRead, DateAttr,
                     IdCreate, IdModify, IdRead, IdAttr, Availability, FileSize, FutureSize,
                     Control, LegalQuals, PrivateUse}
  const KERNEL := {Filename, Actions, Contents}
  const STORAGE := {Account, DateCreate, DateModify, DateRead, DateAttr, IdCreate, IdModify, IdRead, IdAttr,
                    Availability, FileSize, FutureSize}
  const SECURITY := {Control, LegalQuals}
  const CREATION := {Filename, Actions, Contents, Account, Availability, FutureSize, Control, LegalQuals, PrivateUse}

  lemma AllAttrs(attrs: set<Attr>)
    ensures attrs <= ALLATTRS
  {
    forall a | a in attrs ensures a in ALLATTRS {
      match a
      case Filename =>
      case Actions =>
      case Contents =>
      case Account =>
      case DateCreate =>
      case DateModify =>
      case DateRead =>
      case DateAttr =>
      case IdCreate =>
      case IdModify =>
      case IdRead =>
      case IdAttr =>
      case Availability =>
      case FileSize =>
      case FutureSize =>
      case Control =>
      case LegalQuals =>
      case PrivateUse =>
    }
  }

  datatype Perm = ToRead | ToInsert | ToReplace | ToExtend | ToErase | ToReadAttr | ToChangeAttr | ToDelete

  const ALLPERMS := {ToRead, ToInsert, ToReplace, ToExtend, ToErase, ToReadAttr, ToChangeAttr, ToDelete}
  const MODES := {ToRead, ToInsert, ToReplace, ToExtend, ToErase}

  datatype Lock = Shared | Exclusive | NotRequired | NoAccess

  datatype Locks = Locks(read: Lock, insert: Lock, replace: Lock, extend: Lock, erase: Lock,
                         readAttr: Lock, changeAttr: Lock, delete: Lock)
  {
    function Of(p: Perm): Lock {
      match p
      case ToRead => read
      case ToInsert => insert
      case ToReplace => replace
      case ToExtend => extend
      case ToErase => erase
      case ToReadAttr => readAttr
      case ToChangeAttr => changeAttr
      case ToDelete => delete
    }
  }

  const NOLOCKS := Locks(NotRequired, NotRequired, NotRequired, NotRequired,
                         NotRequired, NotRequired, NotRequired, NotRequired)

  // ----- Passwords -----

  /** When any password is given all eight are sent, the others empty. */
  function Filled(passwords: map<Perm, string>): map<Perm, string> {
    if passwords == map[] then map[]
    else map p: Perm | p in ALLPERMS :: if p in passwords then passwords[p] else []
  }

  predicate AllOrNone(passwords: map<Perm, string>) {
    passwords == map[] || passwords.Keys == ALLPERMS
  }

  lemma FilledAsGiven(passwords: map<Perm, string>)
    ensures Filled(passwords) == passwords <==> AllOrNone(passwords)
  {
    if passwords != map[] {
      assert Filled(passwords).Keys == ALLPERMS;
      if passwords.Keys == ALLPERMS {
        assert Filled(passwords) == passwords;
      }
    }
  }
}
