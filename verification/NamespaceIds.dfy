module NamespaceIds {
  /** A namespace is identified by the device and inode of its file. */
  datatype NsId = NsId(device: nat, inode: nat)
}
